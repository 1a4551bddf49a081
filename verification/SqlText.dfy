/** Scanners for SQL comments and string literals, shared by the parameter compiler and the SET lint. */
module SqlText {
  import opened Common

  /** [^\n]* at the head of s. */
  function LineLen(s: string): (n: nat)
    ensures n <= |s|
  {
    if s == "" || s[0] == '\n' then 0 else 1 + LineLen(s[1..])
  }

  /** Up to and including the first close of a block comment, if there is one. */
  function BlockLen(s: string): (r: Option<nat>)
    ensures r.Some? ==> 2 <= r.value <= |s|
  {
    if |s| < 2 then None
    else if s[0] == '*' && s[1] == '/' then Some(2)
    else match BlockLen(s[1..]) case None => None case Some(n) => Some(n + 1)
  }

  /** What follows an opening quote: a doubled quote goes on if the literal can still be closed, else it closes it. */
  function StringLen(s: string): (r: Option<nat>)
    ensures r.Some? ==> 1 <= r.value <= |s|
  {
    if s == "" then None
    else if s[0] != '\'' then
      match StringLen(s[1..]) case None => None case Some(n) => Some(n + 1)
    else if |s| > 1 && s[1] == '\'' then
      match StringLen(s[2..]) case None => Some(1) case Some(n) => Some(n + 2)
    else Some(1)
  }

  lemma {:induction false} Unclosed(s: string)
    ensures StringLen(s).None? <==> '\'' !in s
  {
    if s == "" {
    } else {
      assert s == [s[0]] + s[1..];
      if s[0] != '\'' { Unclosed(s[1..]); }
    }
  }

  // ---------------------------------------------------------------- what the three scanners find

  lemma {:induction false} LineLenOf(w: string, rest: string)
    requires '\n' !in w && (rest == "" || rest[0] == '\n')
    ensures LineLen(w + rest) == |w|
  {
    if w == "" {
      assert w + rest == rest;
    } else {
      assert (w + rest)[1..] == w[1..] + rest;
      LineLenOf(w[1..], rest);
    }
  }

  lemma {:induction false} LineLenIs(s: string)
    ensures '\n' !in s[..LineLen(s)] && (LineLen(s) < |s| ==> s[LineLen(s)] == '\n')
  {
    if s == "" || s[0] == '\n' {
    } else {
      LineLenIs(s[1..]);
      assert s[..LineLen(s)] == [s[0]] + s[1..][..LineLen(s[1..])];
    }
  }

  /** A block comment closes at i. */
  predicate ClosesAt(s: string, i: nat) { i + 1 < |s| && s[i] == '*' && s[i + 1] == '/' }

  predicate Closes(s: string) { exists i | 0 <= i < |s| :: ClosesAt(s, i) }

  /** The close found is the first one. */
  lemma {:induction false} BlockLenIs(s: string)
    ensures BlockLen(s).Some? <==> Closes(s)
    ensures BlockLen(s).Some? ==>
              ClosesAt(s, BlockLen(s).value - 2) && forall i :: 0 <= i < BlockLen(s).value - 2 ==> !ClosesAt(s, i)
  {
    if |s| < 2 {
    } else if s[0] == '*' && s[1] == '/' {
      assert ClosesAt(s, 0);
    } else {
      BlockLenIs(s[1..]);
      assert forall i :: 0 < i < |s| ==> (ClosesAt(s, i) <==> ClosesAt(s[1..], i - 1));
      if Closes(s[1..]) {
        var i :| 0 <= i < |s[1..]| && ClosesAt(s[1..], i);
        assert ClosesAt(s, i + 1);
      }
    }
  }

  lemma {:induction false} BlockLenOf(w: string, rest: string)
    requires !Closes(w)
    ensures BlockLen(w + "*/" + rest) == Some(|w| + 2)
  {
    var s := w + "*/" + rest;
    BlockLenIs(s);
    assert ClosesAt(s, |w|);
    forall i | 0 <= i < |w| ensures !ClosesAt(s, i) {
      assert s[i] == w[i];
      assert !ClosesAt(w, i);
    }
    assert Closes(s);
    var n := BlockLen(s).value;
    assert ClosesAt(s, n - 2);
    assert n - 2 == |w|;
  }

  /** The text of a literal as it is written: every quote twice. */
  function Doubled(w: string): string {
    if w == "" then "" else (if w[0] == '\'' then "''" else [w[0]]) + Doubled(w[1..])
  }

  /** Behind a literal: no quote, or one that nothing closes. */
  predicate EndsLiteral(rest: string) { rest == "" || rest[0] != '\'' || '\'' !in rest[1..] }

  lemma {:induction false} StringLenOf(w: string, rest: string)
    requires EndsLiteral(rest)
    ensures StringLen(Doubled(w) + "'" + rest) == Some(|Doubled(w)| + 1)
  {
    var s := Doubled(w) + "'" + rest;
    if w == "" {
      assert s == "'" + rest;
      LiteralEnds(rest);
    } else {
      var tail := Doubled(w[1..]) + "'" + rest;
      StringLenOf(w[1..], rest);
      if w[0] == '\'' {
        assert s == "''" + tail && s[2..] == tail;
      } else {
        assert s == [w[0]] + tail && s[1..] == tail;
      }
    }
  }

  lemma LiteralEnds(rest: string)
    requires EndsLiteral(rest)
    ensures StringLen("'" + rest) == Some(1)
  {
    if rest != "" && rest[0] == '\'' {
      assert ("'" + rest)[2..] == rest[1..];
      Unclosed(rest[1..]);
    }
  }

  /** What a scanned literal says. */
  lemma {:induction false} StringLenIs(s: string) returns (w: string)
    requires StringLen(s).Some?
    ensures s[..StringLen(s).value] == Doubled(w) + "'" && EndsLiteral(s[StringLen(s).value..])
  {
    var n := StringLen(s).value;
    if s[0] != '\'' {
      w := StringLenIs(s[1..]);
      ShiftCut(s, 1, n);
      w := [s[0]] + w;
    } else if n > 1 {
      w := StringLenIs(s[2..]);
      ShiftCut(s, 2, n);
      w := "'" + w;
    } else {
      w := "";
      if |s| > 1 && s[1] == '\'' {
        Unclosed(s[2..]);
        assert s[1..][1..] == s[2..];
      }
    }
    hide EndsLiteral, StringLen;
  }

  lemma ShiftCut(s: string, k: nat, n: nat)
    requires k <= n <= |s|
    ensures s[..n] == s[..k] + s[k..][..n - k] && s[n..] == s[k..][n - k..]
  {
  }
}
