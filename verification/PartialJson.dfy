/** Best-effort completion of a JSON prefix: close the open string and the open brackets. */
module PartialJson {
  import opened Common

  /** The scanner: expected closers innermost last, inside a string or not, after a backslash or not. */
  datatype Scanner = Scanner(stack: string, inString: bool, escaped: bool)

  const START := Scanner("", false, false)

  /** One character; a closer that does not match rejects the text. */
  function Feed(s: Scanner, r: char): Option<Scanner> {
    if s.inString then
      if s.escaped then Some(s.(escaped := false))
      else if r == '\\' then Some(s.(escaped := true))
      else if r == '"' then Some(s.(inString := false))
      else Some(s)
    else if r == '"' then Some(s.(inString := true))
    else if r == '{' then Some(s.(stack := s.stack + "}"))
    else if r == '[' then Some(s.(stack := s.stack + "]"))
    else if r == '}' || r == ']' then
      if s.stack == "" || s.stack[|s.stack| - 1] != r then None
      else Some(s.(stack := s.stack[..|s.stack| - 1]))
    else Some(s)
  }

  function Scan(text: string): Option<Scanner> {
    if text == "" then Some(START)
    else
      var before := Scan(text[..|text| - 1]);
      if before.None? then None else Feed(before.value, text[|text| - 1])
  }

  predicate Trimmable(c: char) { c in " \t\r\n," }

  function TrimRight(text: string): string {
    if text != "" && Trimmable(text[|text| - 1]) then TrimRight(text[..|text| - 1]) else text
  }

  predicate OnlyClosers(stack: string) {
    forall i :: 0 <= i < |stack| ==> stack[i] == '}' || stack[i] == ']'
  }

  function Closers(stack: string): string {
    if stack == "" then "" else [stack[|stack| - 1]] + Closers(stack[..|stack| - 1])
  }

  /** completePartialJSON */
  method Complete(text: string) returns (out: Option<string>)
    ensures out.None? <==> Scan(text).None?
    ensures out.Some? ==>
              var s := Scan(text).value;
              out.value == TrimRight(text) + (if s.inString then "\"" else "") + Closers(s.stack)
  {
    var stack, inString, escaped := "", false, false;
    assert text[..0] == "";
    for i := 0 to |text|
      invariant Scan(text[..i]) == Some(Scanner(stack, inString, escaped))
      invariant (!inString ==> !escaped)
    {
      var r := text[i];
      assert text[..i + 1][..i] == text[..i];
      ghost var fed := Feed(Scanner(stack, inString, escaped), r);
      assert Scan(text[..i + 1]) == fed;
      if inString {
        if escaped {
          escaped := false;
          continue;
        }
        if r == '\\' {
          escaped := true;
          continue;
        }
        if r == '"' {
          inString := false;
        }
        continue;
      }
      if r == '"' {
        inString := true;
      } else if r == '{' {
        stack := stack + "}";
      } else if r == '[' {
        stack := stack + "]";
      } else if r == '}' || r == ']' {
        if |stack| == 0 || stack[|stack| - 1] != r {
          RejectionIsFinal(text, i + 1);
          return None;
        }
        stack := stack[..|stack| - 1];
      }
    }
    assert text[..|text|] == text;
    var builder := Trim(text);
    if inString {
      builder := builder + "\"";
    }
    builder := CloseAll(builder, stack);
    out := Some(builder);
  }

  /** The loop that appends the missing closers, innermost first. */
  method CloseAll(opened_: string, stack: string) returns (builder: string)
    ensures builder == opened_ + Closers(stack)
  {
    builder := opened_;
    var k := |stack|;
    assert stack[..k] == stack;
    while k > 0
      invariant 0 <= k <= |stack|
      invariant builder + Closers(stack[..k]) == opened_ + Closers(stack)
    {
      k := k - 1;
      assert stack[..k + 1][..k] == stack[..k];
      OneMore(builder, stack[..k + 1]);
      builder := builder + [stack[k]];
    }
    NoClosers(builder);
  }

  method Trim(text: string) returns (out: string)
    ensures out == TrimRight(text)
  {
    var end := |text|;
    assert text[..end] == text;
    while end > 0 && Trimmable(text[end - 1])
      invariant end <= |text| && TrimRight(text[..end]) == TrimRight(text)
    {
      end := end - 1;
      assert text[..end + 1][..end] == text[..end];
    }
    out := text[..end];
  }

  /** A rejected text has no accepted extension: every prefix of an accepted text is accepted. */
  lemma {:induction false} RejectionIsFinal(text: string, n: nat)
    requires n <= |text| && Scan(text[..n]).None?
    ensures Scan(text).None?
    decreases |text| - n
  {
    if n == |text| {
      assert text[..n] == text;
    } else {
      assert text[..n + 1][..n] == text[..n];
      RejectionIsFinal(text, n + 1);
    }
  }

  lemma {:induction false} ScanAppend(text: string, c: char)
    ensures Scan(text + [c]) == if Scan(text).None? then None else Feed(Scan(text).value, c)
  {
    assert (text + [c])[..|text|] == text;
  }

  /** Outside a string nothing is escaped. */
  lemma {:induction false} EscapedOnlyInString(text: string)
    requires Scan(text).Some?
    ensures Scan(text).value.escaped ==> Scan(text).value.inString
    decreases |text|
  {
    if text != "" {
      EscapedOnlyInString(text[..|text| - 1]);
    }
  }

  /** Trailing blanks and commas change neither the open brackets nor whether a string is open. */
  lemma {:induction false} TrimmingKeepsOpen(text: string)
    requires Scan(text).Some?
    ensures var s, t := Scan(text), Scan(TrimRight(text));
            t.Some? && t.value.stack == s.value.stack && t.value.inString == s.value.inString
    decreases |text|
  {
    if text != "" && Trimmable(text[|text| - 1]) {
      TrimmingKeepsOpen(text[..|text| - 1]);
    }
  }

  lemma NoClosers(text: string)
    ensures text + Closers("") == text
  {
  }

  lemma OneMore(text: string, stack: string)
    requires stack != ""
    ensures (text + [stack[|stack| - 1]]) + Closers(stack[..|stack| - 1]) == text + Closers(stack)
  {
    var rest := Closers(stack[..|stack| - 1]);
    var next := [stack[|stack| - 1]];
    assert Closers(stack) == next + rest;
    Associative(text, next, rest);
  }

  /** The closers, fed outside a string, empty the stack. */
  lemma {:induction false} ClosersClose(text: string, stack: string)
    requires Scan(text) == Some(Scanner(stack, false, false))
    requires OnlyClosers(stack)
    ensures Scan(text + Closers(stack)) == Some(START)
    decreases |stack|
  {
    if stack == "" {
      NoClosers(text);
    } else {
      hide Scan, Closers;
      var last := stack[|stack| - 1];
      ScanAppend(text, last);
      assert last == '}' || last == ']';
      ClosersClose(text + [last], stack[..|stack| - 1]);
      OneMore(text, stack);
    }
  }

  /** Inside a string they are text. */
  lemma {:induction false} ClosersAreText(text: string, stack: string)
    requires Scan(text).Some? && Scan(text).value.inString && !Scan(text).value.escaped
    requires OnlyClosers(stack)
    ensures Scan(text + Closers(stack)) == Scan(text)
    decreases |stack|
  {
    if stack == "" {
      NoClosers(text);
    } else {
      hide Scan, Closers;
      var last := stack[|stack| - 1];
      ScanAppend(text, last);
      assert last == '}' || last == ']';
      ClosersAreText(text + [last], stack[..|stack| - 1]);
      OneMore(text, stack);
    }
  }

  lemma {:induction false} StackHoldsClosers(text: string)
    requires Scan(text).Some?
    ensures OnlyClosers(Scan(text).value.stack)
    decreases |text|
  {
    if text != "" {
      StackHoldsClosers(text[..|text| - 1]);
    }
  }

  /**
   The completed text scans with every string closed and every bracket matched exactly when the
   trimmed text does not end in an unfinished escape; otherwise the added quote is swallowed.
   */
  lemma CompletionIsBalancedIff(text: string)
    requires Scan(text).Some?
    ensures var s := Scan(text).value;
            var out := TrimRight(text) + (if s.inString then "\"" else "") + Closers(s.stack);
            Scan(TrimRight(text)).Some?
            && (Scan(out) == Some(START) <==> !Scan(TrimRight(text)).value.escaped)
  {
    var s, trimmed := Scan(text).value, TrimRight(text);
    TrimmingKeepsOpen(text);
    EscapedOnlyInString(trimmed);
    StackHoldsClosers(text);
    var t := Scan(trimmed).value;
    if s.inString {
      ScanAppend(trimmed, '"');
      assert trimmed + "\"" == trimmed + ['"'];
      if t.escaped {
        ClosersAreText(trimmed + "\"", s.stack);
      } else {
        ClosersClose(trimmed + "\"", s.stack);
      }
    } else {
      assert trimmed + "" == trimmed;
      ClosersClose(trimmed, s.stack);
    }
  }

  /** The failing family: a string cut off right after its backslash. */
  lemma UnfinishedEscapeIsNotClosed()
    ensures Scan("\"\\").Some? && Scan(TrimRight("\"\\")).value.escaped
  {
    var text := "\"\\";
    assert text[..1] == "\"" && text[..1][..0] == "";
    assert Scan("\"") == Some(Scanner("", true, false));
    assert Scan(text) == Some(Scanner("", true, true));
  }
}
