/** JSON values, and the pointers of RFC 6901 sections 3 and 4 that a patch addresses them with. */
module JsonPointer {
  import opened Common

  /** A decoded JSON value; a scalar is a boolean, number or string. */
  datatype JSON =
    | Null
    | Scalar(text: string)
    | Array(items: seq<JSON>)
    | Object(members: map<string, JSON>)

  /** strings.ReplaceAll of one character by a string. */
  function ReplaceChar(s: string, c: char, with_: string): string {
    if s == "" then "" else (if s[0] == c then with_ else [s[0]]) + ReplaceChar(s[1..], c, with_)
  }

  function EscapeToken(token: string): string {
    ReplaceChar(ReplaceChar(token, '~', "~0"), '/', "~1")
  }

  function JoinPath(base: string, token: string): string {
    base + "/" + EscapeToken(token)
  }

  /** Replace every "~" followed by digit. */
  function ReplaceTilde(s: string, digit: char, c: char): string {
    if s == "" then ""
    else if |s| >= 2 && s[0] == '~' && s[1] == digit then [c] + ReplaceTilde(s[2..], digit, c)
    else [s[0]] + ReplaceTilde(s[1..], digit, c)
  }

  /** Section 4 of RFC 6901: first "~1" to "/", then "~0" to "~". */
  function UnescapeToken(s: string): string {
    ReplaceTilde(ReplaceTilde(s, '1', '/'), '0', '~')
  }

  /** The reference tokens: what lies between slashes. tail is the part of the last token already seen. */
  function Segments(s: string, tail: string): seq<string>
    decreases |s|
  {
    if s == "" then []
    else
      var front, last := s[..|s| - 1], s[|s| - 1];
      if last == '/' then Segments(front, "") + [tail] else Segments(front, [last] + tail)
  }

  function UnescapeAll(tokens: seq<string>): seq<string> {
    if tokens == [] then [] else UnescapeAll(tokens[..|tokens| - 1]) + [UnescapeToken(tokens[|tokens| - 1])]
  }

  /** A pointer is empty or starts with a slash. */
  function Pointer(path: string): Option<seq<string>> {
    if path == "" then Some([])
    else if path[0] != '/' then None
    else Some(UnescapeAll(Segments(path, "")))
  }

  /** The value the reference tokens lead to; arrays are not entered. */
  function GetAt(doc: JSON, p: seq<string>): Option<JSON>
    decreases |p|
  {
    if p == [] then Some(doc)
    else if doc.Object? && p[0] in doc.members then GetAt(doc.members[p[0]], p[1..])
    else None
  }

  lemma GetBelow(m: map<string, JSON>, k: string, q: seq<string>)
    ensures GetAt(Object(m), [k] + q) == if k in m then GetAt(m[k], q) else None
  {
    assert ([k] + q)[1..] == q;
  }

  // ----- escaping round trip -----

  lemma {:induction false} ReplaceCharAppend(a: string, b: string, c: char, r: string)
    ensures ReplaceChar(a + b, c, r) == ReplaceChar(a, c, r) + ReplaceChar(b, c, r)
  {
    if a == "" {
      assert a + b == b;
    } else {
      assert (a + b)[1..] == a[1..] + b;
      ReplaceCharAppend(a[1..], b, c, r);
    }
  }

  /** Undoing the slashes leaves the tildes escaped; every "~" there is followed by "0". */
  lemma {:induction false} UnescapeSlashes(token: string)
    ensures ReplaceTilde(EscapeToken(token), '1', '/') == ReplaceChar(token, '~', "~0")
  {
    if token != "" {
      var c, rest := token[0], token[1..];
      UnescapeSlashes(rest);
      var tilded := ReplaceChar(rest, '~', "~0");
      if c == '~' {
        ReplaceCharAppend("~0", tilded, '/', "~1");
        assert ReplaceChar("~0", '/', "~1") == "~0" by { assert "~0"[1..] == "0" && "0"[1..] == ""; }
        var escaped := "~0" + EscapeToken(rest);
        assert EscapeToken(token) == escaped;
        assert escaped[1..] == "0" + EscapeToken(rest) && ("0" + EscapeToken(rest))[1..] == EscapeToken(rest);
        assert ReplaceTilde(escaped[1..], '1', '/') == "0" + ReplaceTilde(EscapeToken(rest), '1', '/');
      } else {
        ReplaceCharAppend([c], tilded, '/', "~1");
        assert [c][1..] == "";
        if c == '/' {
          var escaped := "~1" + EscapeToken(rest);
          assert EscapeToken(token) == escaped && escaped[2..] == EscapeToken(rest);
        } else {
          var escaped := [c] + EscapeToken(rest);
          assert EscapeToken(token) == escaped && escaped[1..] == EscapeToken(rest);
        }
      }
    }
  }

  lemma {:induction false} UnescapeTildes(token: string)
    ensures ReplaceTilde(ReplaceChar(token, '~', "~0"), '0', '~') == token
  {
    if token != "" {
      var c, rest := token[0], token[1..];
      UnescapeTildes(rest);
      var escaped := ReplaceChar(rest, '~', "~0");
      if c == '~' {
        assert ("~0" + escaped)[2..] == escaped;
      } else {
        assert ([c] + escaped)[1..] == escaped;
      }
    }
  }

  /** Any key, with any number of "~" and "/", survives escaping. */
  lemma TokenRoundTrip(token: string)
    ensures UnescapeToken(EscapeToken(token)) == token
  {
    UnescapeSlashes(token);
    UnescapeTildes(token);
  }

  lemma {:induction false} NoSlash(s: string)
    ensures '/' !in ReplaceChar(s, '/', "~1")
  {
    if s != "" {
      NoSlash(s[1..]);
    }
  }

  lemma {:induction false} SegmentsOfJoin(base: string, token: string, tail: string)
    requires '/' !in token
    ensures Segments(base + "/" + token, tail) == Segments(base, "") + [token + tail]
    decreases |token|
  {
    var s := base + "/" + token;
    if token == "" {
      assert s[..|s| - 1] == base && token + tail == tail;
    } else {
      var front, last := token[..|token| - 1], token[|token| - 1];
      assert s[..|s| - 1] == base + "/" + front;
      SegmentsOfJoin(base, front, [last] + tail);
      assert front + ([last] + tail) == token + tail;
    }
  }

  /** Joining a key to a pointer appends it as one reference token. */
  lemma PointerOfJoin(base: string, key: string)
    requires Pointer(base).Some?
    ensures Pointer(JoinPath(base, key)) == Some(Pointer(base).value + [key])
  {
    var token := EscapeToken(key);
    NoSlash(ReplaceChar(key, '~', "~0"));
    SegmentsOfJoin(base, token, "");
    assert token + "" == token;
    var all := Segments(base, "") + [token];
    assert all[..|all| - 1] == Segments(base, "");
    TokenRoundTrip(key);
    assert UnescapeAll(all) == UnescapeAll(Segments(base, "")) + [UnescapeToken(all[|all| - 1])];
    assert Segments("", "") == [] && UnescapeAll([]) == [];
    assert |JoinPath(base, key)| > 0 && JoinPath(base, key)[0] == '/';
  }
}
