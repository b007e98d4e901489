/** JSON Pointer as text: escaping, tokens and child pointers (sections 3 and 4 of RFC 6901). */
module PointerText {
  import opened Bytes

  /** Python's `str.replace`: leftmost, non-overlapping. */
  function ReplaceAll(s: string, find: string, put: string): string
    requires find != ""
    decreases |s|
  {
    if s == "" then ""
    else if find <= s then put + ReplaceAll(s[|find|..], find, put)
    else [s[0]] + ReplaceAll(s[1..], find, put)
  }

  function Escape(token: string): string {
    ReplaceAll(ReplaceAll(token, "~", "~0"), "/", "~1")
  }

  function Unescape(token: string): string {
    ReplaceAll(ReplaceAll(token, "~1", "/"), "~0", "~")
  }

  // ---- Unescaping inverts escaping ----

  /** Only the tildes written out. */
  function Tildes(t: string): string {
    if t == "" then "" else (if t[0] == '~' then "~0" else [t[0]]) + Tildes(t[1..])
  }

  /** Tildes and slashes written out, character by character. */
  function Escaped(t: string): string {
    if t == "" then ""
    else (if t[0] == '~' then "~0" else if t[0] == '/' then "~1" else [t[0]]) + Escaped(t[1..])
  }

  lemma {:induction false} TildesReplaced(t: string)
    ensures ReplaceAll(t, "~", "~0") == Tildes(t)
  {
    if t != "" {
      TildesReplaced(t[1..]);
      assert t == [t[0]] + t[1..];
    }
  }

  lemma {:induction false} SlashesReplaced(t: string)
    ensures ReplaceAll(Tildes(t), "/", "~1") == Escaped(t)
  {
    if t != "" {
      SlashesReplaced(t[1..]);
      var rest := Tildes(t[1..]);
      if t[0] == '~' {
        ReplaceSkipsTwo("~0", rest, "/", "~1");
      } else if t[0] == '/' {
        ReplaceHits("/", rest, "~1");
      } else {
        ReplaceSkips(t[0], rest, "/", "~1");
      }
    }
  }

  lemma {:induction false} ReplaceSkips(c: char, rest: string, find: string, put: string)
    requires find != ""
    requires find[0] != c || (|find| > 1 && (rest == "" || rest[0] != find[1]))
    ensures ReplaceAll([c] + rest, find, put) == [c] + ReplaceAll(rest, find, put)
  {
    var s := [c] + rest;
    assert s[0] == c && (rest != "" ==> s[1] == rest[0]);
    assert !(find <= s);
    assert ([c] + rest)[1..] == rest;
  }

  lemma {:induction false} ReplaceSkipsTwo(pair: string, rest: string, find: string, put: string)
    requires find != "" && |pair| == 2 && find[0] != pair[1]
    requires find[0] != pair[0] || (|find| > 1 && pair[1] != find[1])
    ensures ReplaceAll(pair + rest, find, put) == pair + ReplaceAll(rest, find, put)
  {
    assert pair + rest == [pair[0]] + ([pair[1]] + rest);
    ReplaceSkips(pair[0], [pair[1]] + rest, find, put);
    ReplaceSkips(pair[1], rest, find, put);
  }

  lemma {:induction false} ReplaceHits(find: string, rest: string, put: string)
    requires find != ""
    ensures ReplaceAll(find + rest, find, put) == put + ReplaceAll(rest, find, put)
  {
    assert (find + rest)[|find|..] == rest;
  }

  lemma {:induction false} SlashesRestored(t: string)
    ensures ReplaceAll(Escaped(t), "~1", "/") == Tildes(t)
  {
    if t != "" {
      SlashesRestored(t[1..]);
      var rest := Escaped(t[1..]);
      if t[0] == '~' {
        ReplaceSkipsTwo("~0", rest, "~1", "/");
      } else if t[0] == '/' {
        ReplaceHits("~1", rest, "/");
      } else {
        ReplaceSkips(t[0], rest, "~1", "/");
      }
    }
  }

  lemma {:induction false} TildesRestored(t: string)
    ensures ReplaceAll(Tildes(t), "~0", "~") == t
  {
    if t != "" {
      TildesRestored(t[1..]);
      var rest := Tildes(t[1..]);
      if t[0] == '~' {
        ReplaceHits("~0", rest, "~");
      } else {
        ReplaceSkips(t[0], rest, "~0", "~");
      }
      assert t == [t[0]] + t[1..];
    }
  }

  /** Escaping writes out each tilde and slash, and unescaping gives back every token, although both
      work by successive replacements. */
  lemma {:induction false} UnescapeEscape(t: string)
    ensures Escape(t) == Escaped(t)
    ensures Unescape(Escape(t)) == t
  {
    TildesReplaced(t);
    SlashesReplaced(t);
    SlashesRestored(t);
    TildesRestored(t);
  }

  lemma {:induction false} EscapeSlashFree(t: string)
    ensures '/' !in Escape(t)
  {
    TildesReplaced(t);
    SlashesReplaced(t);
    EscapedSlashFree(t);
  }

  lemma {:induction false} EscapedSlashFree(t: string)
    ensures '/' !in Escaped(t)
  {
    if t != "" {
      EscapedSlashFree(t[1..]);
    }
  }

  // ---- Tokens ----

  /** `s.split("/")`. */
  function Split(s: string): (parts: seq<string>)
    ensures parts != []
  {
    if s == "" then [""]
    else if s[0] == '/' then [""] + Split(s[1..])
    else
      var rest := Split(s[1..]);
      [[s[0]] + rest[0]] + rest[1..]
  }

  lemma {:induction false} SplitSnoc(s: string, part: string)
    requires '/' !in part
    ensures Split(s + "/" + part) == Split(s) + [part]
  {
    if s == "" {
      SplitPart(part);
      assert ("" + "/" + part)[1..] == part;
    } else {
      SplitSnoc(s[1..], part);
      assert (s + "/" + part)[1..] == s[1..] + "/" + part;
    }
  }

  lemma {:induction false} SplitPart(part: string)
    requires '/' !in part
    ensures Split(part) == [part]
  {
    if part != "" {
      SplitPart(part[1..]);
      assert part == [part[0]] + part[1..];
    }
  }

  function UnescapeAll(parts: seq<string>): seq<string> {
    if parts == [] then [] else UnescapeAll(parts[..|parts| - 1]) + [Unescape(parts[|parts| - 1])]
  }

  /** `pointer_tokens`: no tokens for a pointer that is neither empty nor starts with a slash. */
  function Tokens(pointer: string): Option<seq<string>> {
    if pointer == "" then Some([])
    else if pointer[0] != '/' then None
    else Some(UnescapeAll(Split(pointer[1..])))
  }

  /** `child_pointer`. */
  function ChildPointer(pointer: string, token: string): string {
    if pointer != "" then pointer + "/" + Escape(token) else "/" + Escape(token)
  }

  /** A child pointer has exactly one more token; a malformed pointer stays malformed. */
  lemma {:induction false} ChildAppends(pointer: string, token: string)
    ensures Tokens(ChildPointer(pointer, token)) ==
            if Tokens(pointer).Some? then Some(Tokens(pointer).value + [token]) else None
  {
    var e, child := Escape(token), ChildPointer(pointer, token);
    EscapeSlashFree(token);
    UnescapeEscape(token);
    if pointer == "" {
      assert child[1..] == e;
      SplitPart(e);
      assert UnescapeAll([e]) == UnescapeAll([e][..0]) + [Unescape(e)];
    } else if pointer[0] == '/' {
      assert child[1..] == pointer[1..] + "/" + e;
      SplitSnoc(pointer[1..], e);
      var parts := Split(pointer[1..]);
      assert (parts + [e])[..|parts|] == parts;
    }
  }

  /** The pointer that spells a path of tokens. */
  function PointerOf(path: seq<string>): string {
    if path == [] then "" else ChildPointer(PointerOf(path[..|path| - 1]), path[|path| - 1])
  }

  lemma {:induction false} TokensOfPointer(path: seq<string>)
    ensures Tokens(PointerOf(path)) == Some(path)
  {
    if path != [] {
      TokensOfPointer(path[..|path| - 1]);
      ChildAppends(PointerOf(path[..|path| - 1]), path[|path| - 1]);
      assert path == path[..|path| - 1] + [path[|path| - 1]];
    }
  }

  /** Different paths have different pointers. */
  lemma {:induction false} PointersDiffer(a: seq<string>, b: seq<string>)
    ensures PointerOf(a) == PointerOf(b) <==> a == b
  {
    TokensOfPointer(a);
    TokensOfPointer(b);
  }
}
