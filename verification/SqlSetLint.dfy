/**
 The SET scanner of the SQL lint: a token pass that keeps, per parenthesis depth, which statement is open.

 The token expression becomes a scanner with the same alternatives in the same order. The stack machine is
 proved against a specification that has no stack: the tokens of a token's own parenthesis group.
 */
module SqlSetLint {
  import opened CharClasses
  import opened Common
  import opened SqlText

  datatype Kind = With | Select | Insert | Update | Delete | Create | Alter | CreateFunction | AlterTable

  datatype Token =
    | Opaque                       // comment, string literal, dollar-quoted body
    | Open | Close | Semicolon
    | ForUpdate
    | Statement(kind: Kind)
    | Routine                      // FUNCTION or PROCEDURE
    | Table
    | Set(columnAttribute: bool)

  // ---------------------------------------------------------------- tokens of a text

  function Upper(c: char): char { if 'a' <= c <= 'z' then 'A' + (c - 'a') else c }

  predicate SameIgnoringCase(s: string, t: string) {
    |s| == |t| && forall i :: 0 <= i < |s| ==> Upper(s[i]) == Upper(t[i])
  }

  predicate StartsWith(s: string, word: string) { |word| <= |s| && SameIgnoringCase(s[..|word|], word) }

  /** word followed by a word boundary. */
  predicate StartsWithWord(s: string, word: string) {
    StartsWith(s, word) && (|s| > |word| ==> !IsWord(s[|word|]))
  }

  function Spaces(s: string): (n: nat)
    ensures n <= |s|
  {
    if s == "" || !IsSpace(s[0]) then 0 else 1 + Spaces(s[1..])
  }

  function WordLen(s: string): (n: nat)
    ensures n <= |s|
  {
    if s == "" || !IsWord(s[0]) then 0 else 1 + WordLen(s[1..])
  }

  /** Characters up to and including the first occurrence of mark. */
  function UpToMark(s: string, mark: string): (r: Option<nat>)
    ensures r.Some? ==> |mark| <= r.value <= |s|
  {
    if StartsWith(s, mark) then Some(|mark|)
    else if s == "" then None
    else match UpToMark(s[1..], mark) case None => None case Some(n) => Some(n + 1)
  }

  /** $tag$ ... $tag$, the two tags compared without case as the whole expression is. */
  function DollarLen(s: string): (r: Option<nat>)
    ensures r.Some? ==> 0 < r.value <= |s|
  {
    if s == "" || s[0] != '$' then None
    else
      var n := 1 + WordLen(s[1..]);
      if n >= |s| || s[n] != '$' then None
      else match UpToMark(s[n + 1..], s[..n + 1]) case None => None case Some(k) => Some(n + 1 + k)
  }

  /** White space behind SET, cut back by one character when LOCAL would follow; None when that leaves none. */
  function SetSpace(s: string): (r: Option<nat>)
    ensures r.Some? ==> 0 < r.value <= |s|
  {
    var n := Spaces(s);
    if n == 0 then None
    else if !StartsWithWord(s[n..], "LOCAL") then Some(n)
    else if n > 1 then Some(n - 1)
    else None
  }

  /** first, white space, then second. */
  predicate TwoWords(s: string, first: string, second: string) {
    StartsWith(s, first) && var n := Spaces(s[|first|..]); n > 0 && StartsWith(s[|first| + n..], second)
  }

  predicate ColumnAttribute(s: string) {
    || TwoWords(s, "NOT", "NULL")
    || StartsWithWord(s, "DEFAULT")
    || (TwoWords(s, "DATA", "TYPE") && StartsWithWord(s[4 + Spaces(s[4..])..], "TYPE"))
    || StartsWithWord(s, "STATISTICS")
  }

  datatype Keyword = Keyword(word: string, token: Token)

  const KEYWORDS := [
    Keyword("WITH", Statement(With)), Keyword("SELECT", Statement(Select)), Keyword("INSERT", Statement(Insert)),
    Keyword("UPDATE", Statement(Update)), Keyword("DELETE", Statement(Delete)), Keyword("CREATE", Statement(Create)),
    Keyword("ALTER", Statement(Alter)), Keyword("FUNCTION", Routine), Keyword("PROCEDURE", Routine),
    Keyword("TABLE", Table)]

  function FindKeyword(s: string, keywords: seq<Keyword>): (r: Option<Keyword>)
    requires forall k :: k in keywords ==> k.word != ""
    ensures r.Some? ==> 0 < |r.value.word| <= |s|
  {
    if keywords == [] then None
    else if StartsWithWord(s, keywords[0].word) then Some(keywords[0])
    else FindKeyword(s, keywords[1..])
  }

  datatype Lexed = Lexed(length: nat, token: Token)

  /** The words, which need a word boundary in front. */
  function WordHead(s: string): (r: Option<Lexed>)
    ensures r.Some? ==> 0 < r.value.length <= |s|
  {
    if TwoWords(s, "FOR", "UPDATE") && StartsWithWord(s[3 + Spaces(s[3..])..], "UPDATE") then
      Some(Lexed(3 + Spaces(s[3..]) + 6, ForUpdate))
    else match FindKeyword(s, KEYWORDS)
      case Some(k) => Some(Lexed(|k.word|, k.token))
      case None =>
        if !StartsWith(s, "SET") then None
        else match SetSpace(s[3..])
          case None => None
          case Some(n) => Some(Lexed(3 + n, Set(ColumnAttribute(s[3 + n..]))))
  }

  /** The token at the head of s, given whether a word may start there. */
  function Head(s: string, boundary: bool): (r: Option<Lexed>)
    requires s != ""
    ensures r.Some? ==> 0 < r.value.length <= |s|
  {
    if |s| > 1 && s[0] == '-' && s[1] == '-' then Some(Lexed(2 + LineLen(s[2..]), Opaque))
    else if s[0] == '\'' && StringLen(s[1..]).Some? then Some(Lexed(1 + StringLen(s[1..]).value, Opaque))
    else if DollarLen(s).Some? then Some(Lexed(DollarLen(s).value, Opaque))
    else if s[0] == '(' then Some(Lexed(1, Open))
    else if s[0] == ')' then Some(Lexed(1, Close))
    else if s[0] == ';' then Some(Lexed(1, Semicolon))
    else if boundary then WordHead(s)
    else None
  }

  datatype Lexeme = Lexeme(index: nat, end: nat, token: Token)

  function LexemeAt(s: string, i: nat): Option<Lexeme>
    requires i < |s|
  {
    match Head(s[i..], i == 0 || !IsWord(s[i - 1]))
    case None => None
    case Some(x) => Some(Lexeme(i, i + x.length, x.token))
  }

  function NextLexeme(s: string, from: nat): (r: Option<Lexeme>)
    requires from <= |s|
    ensures r.Some? ==> from <= r.value.index < r.value.end <= |s|
    decreases |s| - from
  {
    if from == |s| then None
    else if LexemeAt(s, from).Some? then LexemeAt(s, from)
    else NextLexeme(s, from + 1)
  }

  function Lex(s: string, from: nat): seq<Lexeme>
    requires from <= |s|
    decreases |s| - from
  {
    match NextLexeme(s, from)
    case None => []
    case Some(x) => [x] + Lex(s, x.end)
  }

  // ---------------------------------------------------------------- the statement a token belongs to

  function Last(ts: seq<Token>): Token requires ts != [] { ts[|ts| - 1] }

  function Init(ts: seq<Token>): seq<Token> requires ts != [] { ts[..|ts| - 1] }

  /** What stands before the parenthesis that is still open at the end of ts, past depth further open ones. */
  function Outer(ts: seq<Token>, depth: nat): (r: Option<seq<Token>>)
    ensures r.Some? ==> |r.value| < |ts| && r.value == ts[..|r.value|]
  {
    if ts == [] then None
    else if Last(ts).Close? then Outer(Init(ts), depth + 1)
    else if !Last(ts).Open? then Outer(Init(ts), depth)
    else if depth > 0 then Outer(Init(ts), depth - 1)
    else Some(Init(ts))
  }

  /** Tokens that say something about the statement they stand in. */
  predicate Telling(t: Token) { t.Semicolon? || t.Statement? || t.Routine? || t.Table? }

  /** The telling tokens of the parenthesis group that is open at the end of ts, closed groups left out. */
  function Own(ts: seq<Token>): (own: seq<Token>)
    ensures forall t :: t in own ==> Telling(t)
    decreases |ts|
  {
    if ts == [] then []
    else if Last(ts).Open? then []
    else if Last(ts).Close? then (match Outer(Init(ts), 0) case Some(before) => Own(before) case None => Own(Init(ts)))
    else if Telling(Last(ts)) then Own(Init(ts)) + [Last(ts)]
    else Own(Init(ts))
  }

  /** How one token changes the open statement. */
  function Follow(kind: Option<Kind>, t: Token): Option<Kind> {
    match t
    case Semicolon => None
    case Statement(k) => Some(k)
    case Routine => if kind == Some(Create) then Some(CreateFunction) else kind
    case Table => if kind == Some(Alter) then Some(AlterTable) else kind
    case _ => kind
  }

  function KindOf(own: seq<Token>): Option<Kind> {
    if own == [] then None else Follow(KindOf(Init(own)), Last(own))
  }

  /** The statement open at the end of ts. */
  function Top(ts: seq<Token>): Option<Kind> { KindOf(Own(ts)) }

  predicate Exempt(kind: Option<Kind>) { kind in {Some(Update), Some(CreateFunction), Some(AlterTable)} }

  /** The token behind ts is a banned SET. */
  predicate Banned(ts: seq<Token>, t: Token) { t.Set? && !t.columnAttribute && !Exempt(Top(ts)) }

  function Tokens(xs: seq<Lexeme>): (ts: seq<Token>)
    ensures |ts| == |xs|
  {
    seq(|xs|, i requires 0 <= i < |xs| => xs[i].token)
  }

  /** The positions of the banned SETs. */
  function BannedIndices(xs: seq<Lexeme>): seq<nat> {
    if xs == [] then []
    else
      var n := |xs| - 1;
      BannedIndices(xs[..n]) + if Banned(Tokens(xs[..n]), xs[n].token) then [xs[n].index] else []
  }

  // ---------------------------------------------------------------- the scanner

  /** One kind per open parenthesis, the outermost first. */
  function StackOf(ts: seq<Token>): (st: seq<Option<Kind>>)
    ensures st != []
    decreases |ts|
  {
    (match Outer(ts, 0) case Some(before) => StackOf(before) case None => []) + [Top(ts)]
  }

  method FindSetViolations(content: string) returns (indices: seq<nat>)
    ensures indices == BannedIndices(Lex(content, 0))
  {
    hide StackOf, Top, NextLexeme, Tokens, BannedIndices;
    indices := [];
    StartStack();
    var kindStack: seq<Option<Kind>> := [None];
    ghost var done: seq<Lexeme> := [];
    var lastIndex := 0;
    var found := NextLexeme(content, lastIndex);
    while found.Some?
      invariant lastIndex <= |content| && found == NextLexeme(content, lastIndex)
      invariant found.Some? ==> lastIndex <= found.value.index < found.value.end <= |content|
      invariant done + Lex(content, lastIndex) == Lex(content, 0)
      invariant kindStack == StackOf(Tokens(done)) && indices == BannedIndices(done)
      decreases |content| - lastIndex
    {
      var token, top := found.value.token, |kindStack| - 1;
      ghost var before := done;
      done := done + [found.value];
      StackStep(Tokens(before), token);
      BannedSnoc(before, found.value);
      match token {
      case Opaque =>
      case Open => kindStack := kindStack + [None];
      case Close => if |kindStack| > 1 { kindStack := kindStack[..top]; }
      case Semicolon => kindStack := kindStack[top := None];
      case ForUpdate =>
      case Routine => if kindStack[top] == Some(Create) { kindStack := kindStack[top := Some(CreateFunction)]; }
      case Table => if kindStack[top] == Some(Alter) { kindStack := kindStack[top := Some(AlterTable)]; }
      case Statement(kind) => kindStack := kindStack[top := Some(kind)];
      case Set(columnAttribute) =>
        var isExempt := Exempt(kindStack[top]) || columnAttribute;
        if !isExempt {
          indices := indices + [found.value.index];
        }
      }
      lastIndex := found.value.end;
      found := NextLexeme(content, lastIndex);
    }
    assert done + [] == done;
  }

  lemma BannedSnoc(xs: seq<Lexeme>, x: Lexeme)
    ensures Tokens(xs + [x]) == Tokens(xs) + [x.token]
    ensures BannedIndices(xs + [x]) == BannedIndices(xs) + if Banned(Tokens(xs), x.token) then [x.index] else []
  {
    assert (xs + [x])[..|xs|] == xs;
    hide Banned;
  }

  lemma StartStack()
    ensures StackOf(Tokens([])) == [None] && BannedIndices([]) == []
  {
  }

  /** Below an open parenthesis lies the next outer one. */
  lemma {:induction false} OuterTwice(ts: seq<Token>, depth: nat)
    ensures Outer(ts, depth + 1) == match Outer(ts, depth) case None => None case Some(before) => Outer(before, 0)
  {
    if ts == [] {
    } else {
      match Last(ts)
      case Close => OuterTwice(Init(ts), depth + 1);
      case Open => if depth > 0 { OuterTwice(Init(ts), depth - 1); }
      case _ => OuterTwice(Init(ts), depth);
    }
  }

  lemma StackTop(ts: seq<Token>)
    ensures StackOf(ts)[|StackOf(ts)| - 1] == Top(ts)
  {
    hide Top, Outer;
  }

  lemma StackOpens(ts: seq<Token>)
    ensures StackOf(ts + [Open]) == StackOf(ts) + [None]
  {
    assert Last(ts + [Open]) == Open && Init(ts + [Open]) == ts;
    assert Outer(ts + [Open], 0) == Some(ts) && Own(ts + [Open]) == [];
    hide Outer, Own;
  }

  lemma StackCloses(ts: seq<Token>)
    ensures StackOf(ts + [Close]) == if |StackOf(ts)| > 1 then StackOf(ts)[..|StackOf(ts)| - 1] else StackOf(ts)
  {
    CloseMeaning(ts);
    hide Outer, Top;
    match Outer(ts, 0)
    case None =>
    case Some(before) =>
      assert StackOf(ts) == StackOf(before) + [Top(ts)];
      assert StackOf(ts + [Close]) == StackOf(before);
  }

  /** A closing parenthesis brings back the tokens in front of its group; without an open one it does nothing. */
  lemma CloseMeaning(ts: seq<Token>)
    ensures match Outer(ts, 0)
            case None => Outer(ts + [Close], 0) == None && Top(ts + [Close]) == Top(ts)
            case Some(before) => Outer(ts + [Close], 0) == Outer(before, 0) && Top(ts + [Close]) == Top(before)
  {
    var us := ts + [Close];
    assert Last(us) == Close && Init(us) == ts;
    OuterTwice(ts, 0);
    hide KindOf, Telling;
  }

  lemma StackFollows(ts: seq<Token>, t: Token)
    requires !t.Open? && !t.Close?
    ensures StackOf(ts + [t]) == StackOf(ts)[|StackOf(ts)| - 1 := Follow(Top(ts), t)]
  {
    hide Top, Follow, Own;
    assert Last(ts + [t]) == t && Init(ts + [t]) == ts;
    assert Outer(ts + [t], 0) == Outer(ts, 0);
    TopFollows(ts, t);
    hide Outer;
  }

  lemma TopFollows(ts: seq<Token>, t: Token)
    requires !t.Open? && !t.Close?
    ensures Top(ts + [t]) == Follow(Top(ts), t)
  {
    assert Last(ts + [t]) == t && Init(ts + [t]) == ts;
    var own := Own(ts);
    if Telling(t) {
      assert Own(ts + [t]) == own + [t];
      hide Own;
      assert Init(own + [t]) == own && Last(own + [t]) == t;
    }
  }

  /** The stack holds, at every depth, the statement open there. */
  lemma StackStep(ts: seq<Token>, t: Token)
    ensures var st, top := StackOf(ts), |StackOf(ts)| - 1;
            && st[top] == Top(ts)
            && StackOf(ts + [t]) == match t
                                    case Open => st + [None]
                                    case Close => if top > 0 then st[..top] else st
                                    case _ => st[top := Follow(st[top], t)]
  {
    StackTop(ts);
    hide StackOf, Top, Follow;
    if t.Open? { StackOpens(ts); }
    else if t.Close? { StackCloses(ts); }
    else { StackFollows(ts, t); }
  }

  // ---------------------------------------------------------------- the verdict in words

  /** own[i] is the last statement keyword since the last ';'. */
  ghost predicate LastKeyword(own: seq<Token>, i: nat) {
    i < |own| && own[i].Statement? && forall j :: i < j < |own| ==> !own[j].Statement? && !own[j].Semicolon?
  }

  ghost predicate Followed(own: seq<Token>, i: nat, t: Token) { exists j :: i < j < |own| && own[j] == t }

  /** UPDATE, CREATE with FUNCTION or PROCEDURE behind it, ALTER with TABLE behind it. */
  ghost predicate ExemptStatement(own: seq<Token>) {
    exists i: nat :: LastKeyword(own, i) &&
      match own[i].kind
      case Update => true
      case CreateFunction => true
      case AlterTable => true
      case Create => Followed(own, i, Routine)
      case Alter => Followed(own, i, Table)
      case _ => false
  }

  /** What the fold has seen: nothing since the last ';', or the last keyword and what came behind it. */
  ghost predicate Folded(own: seq<Token>, kind: Option<Kind>) {
    match kind
    case None => forall i: nat :: !LastKeyword(own, i)
    case Some(k) => exists i: nat :: LastKeyword(own, i) && Upgraded(own, i) == k
  }

  ghost function Upgraded(own: seq<Token>, i: nat): Kind
    requires LastKeyword(own, i)
  {
    if own[i].kind == Create && Followed(own, i, Routine) then CreateFunction
    else if own[i].kind == Alter && Followed(own, i, Table) then AlterTable
    else own[i].kind
  }

  lemma {:induction false} FoldMeaning(own: seq<Token>)
    requires forall t :: t in own ==> Telling(t)
    ensures Folded(own, KindOf(own))
  {
    if own == [] {
    } else {
      var n := |own| - 1;
      FoldMeaning(Init(own));
      if Last(own).Semicolon? {
        assert forall i: nat :: !LastKeyword(own, i) by { assert own[n].Semicolon?; }
      } else if Last(own).Statement? {
        assert LastKeyword(own, n) && Upgraded(own, n) == Last(own).kind;
      } else {
        assert own[n] in own;
        FoldStep(own);
      }
    }
  }

  lemma FoldStep(own: seq<Token>)
    requires own != [] && (Last(own).Routine? || Last(own).Table?) && Folded(Init(own), KindOf(Init(own)))
    ensures Folded(own, KindOf(own))
  {
    forall i: nat ensures LastKeyword(own, i) <==> LastKeyword(Init(own), i) {
      assert i < |own| - 1 ==> Init(own)[i] == own[i];
    }
    if KindOf(Init(own)).Some? {
      var i: nat :| LastKeyword(Init(own), i) && Upgraded(Init(own), i) == KindOf(Init(own)).value;
      assert Upgraded(own, i) == KindOf(own).value;
    }
  }

  /** A SET is flagged exactly when it has no column-attribute form and the last statement keyword of its own
      parenthesis group, since the group's last ';', is no UPDATE, no CREATE of a routine and no ALTER of a table. */
  lemma BannedMeaning(ts: seq<Token>, columnAttribute: bool)
    ensures Banned(ts, Set(columnAttribute)) <==> !columnAttribute && !ExemptStatement(Own(ts))
  {
    var own := Own(ts);
    FoldMeaning(own);
    hide Own, KindOf;
    forall i: nat, j: nat | LastKeyword(own, i) && LastKeyword(own, j) ensures i == j {}
    if ExemptStatement(own) {
      var i: nat :| LastKeyword(own, i);
      assert KindOf(own) == Some(Upgraded(own, i));
    }
  }

  // ---------------------------------------------------------------- what does not matter

  /** Open parentheses left at the end; None when one is closed too often. */
  function Level(ts: seq<Token>): Option<nat> {
    if ts == [] then Some(0)
    else match Level(Init(ts))
      case None => None
      case Some(n) =>
        if Last(ts).Open? then Some(n + 1)
        else if !Last(ts).Close? then Some(n)
        else if n == 0 then None
        else Some(n - 1)
  }

  /** A comment, literal or dollar body, a FOR UPDATE, or a whole parenthesised group. */
  ghost predicate Erasable(g: seq<Token>) {
    || g == [Opaque] || g == [ForUpdate]
    || exists inner :: g == [Open] + inner + [Close] && Level(inner) == Some(0)
  }

  /** Text whose parentheses are closed again hides nothing in front of it. */
  lemma {:induction false} OuterPast(a: seq<Token>, inner: seq<Token>, depth: nat)
    requires Level(inner).Some?
    ensures Outer(a + inner, depth + Level(inner).value) == Outer(a, depth)
    decreases |inner|
  {
    if inner == [] {
      assert a + inner == a;
    } else {
      assert Last(a + inner) == Last(inner) && Init(a + inner) == a + Init(inner);
      OuterPast(a, Init(inner), depth);
    }
  }

  lemma ErasedGroup(a: seq<Token>, g: seq<Token>)
    requires Erasable(g)
    ensures Own(a + g) == Own(a) && forall depth: nat :: Outer(a + g, depth) == Outer(a, depth)
  {
    if inner :| g == [Open] + inner + [Close] && Level(inner) == Some(0) {
      var b := a + [Open];
      assert a + g == b + inner + [Close];
      assert Init(a + g) == b + inner && Last(a + g) == Close;
      assert Init(b) == a && Last(b) == Open;
      OuterPast(b, inner, 0);
      forall depth: nat ensures Outer(a + g, depth) == Outer(a, depth) {
        OuterPast(b, inner, depth + 1);
      }
    } else {
      assert Init(a + g) == a && Last(a + g) == g[0];
    }
  }

  /** Behind an erasable part the enclosing groups are the same, with the part in front or without it. */
  lemma {:induction false} OuterErased(a: seq<Token>, g: seq<Token>, b: seq<Token>, depth: nat)
    requires Erasable(g)
    ensures match Outer(a + b, depth)
            case None => Outer(a + g + b, depth) == None
            case Some(p) =>
              && Outer(a + g + b, depth).Some?
              && var q := Outer(a + g + b, depth).value;
                 q == p || exists x :: |x| < |b| && p == a + x && q == a + g + x
    decreases |b|
  {
    if b == [] {
      assert a + g + b == a + g && a + b == a;
      ErasedGroup(a, g);
    } else {
      assert Last(a + g + b) == Last(b) && Init(a + g + b) == a + g + Init(b);
      assert Last(a + b) == Last(b) && Init(a + b) == a + Init(b);
      if Last(b).Close? { OuterErased(a, g, Init(b), depth + 1); }
      else if !Last(b).Open? { OuterErased(a, g, Init(b), depth); }
      else if depth > 0 { OuterErased(a, g, Init(b), depth - 1); }
    }
  }

  lemma {:induction false} OwnErased(a: seq<Token>, g: seq<Token>, b: seq<Token>)
    requires Erasable(g)
    ensures Own(a + g + b) == Own(a + b)
    decreases |b|
  {
    if b == [] {
      assert a + g + b == a + g && a + b == a;
      ErasedGroup(a, g);
    } else {
      var i := Init(b);
      assert Last(a + g + b) == Last(b) && Init(a + g + b) == a + g + i;
      assert Last(a + b) == Last(b) && Init(a + b) == a + i;
      OwnErased(a, g, i);
      if Last(b).Close? {
        OuterErased(a, g, i, 0);
        if Outer(a + i, 0).Some? {
          var p, q := Outer(a + i, 0).value, Outer(a + g + i, 0).value;
          if q != p {
            var x :| |x| < |i| && p == a + x && q == a + g + x;
            OwnErased(a, g, x);
          }
        }
      }
    }
  }

  /** Erasing a closed group, an opaque token or a FOR UPDATE changes no verdict behind it; in front of it nothing
      depends on it either, since a verdict looks only back. */
  lemma ErasureKeepsVerdicts(a: seq<Token>, g: seq<Token>, b: seq<Token>, t: Token)
    requires Erasable(g)
    ensures Banned(a + g + b, t) <==> Banned(a + b, t)
  {
    OwnErased(a, g, b);
    hide Own;
  }

  /** And what stands inside a group does not depend on what stands outside. */
  lemma {:induction false} OwnInside(a: seq<Token>, x: seq<Token>)
    requires Level(x).Some?
    ensures Own(a + [Open] + x) == Own(x)
    decreases |x|
  {
    var b := a + [Open];
    if x == [] {
      assert b + x == b;
    } else {
      assert Last(b + x) == Last(x) && Init(b + x) == b + Init(x);
      OwnInside(a, Init(x));
      if Last(x).Close? {
        OuterInside(b, Init(x), 0);
        var y := Outer(Init(x), 0).value;
        OwnInside(a, y);
      }
    }
  }

  /** A group that is closed within x was opened within x. */
  lemma {:induction false} OuterInside(b: seq<Token>, x: seq<Token>, depth: nat)
    requires Level(x).Some? && depth < Level(x).value
    ensures Outer(x, depth).Some? && Outer(b + x, depth) == Some(b + Outer(x, depth).value)
    ensures Level(Outer(x, depth).value).Some?
    decreases |x|
  {
    assert Last(b + x) == Last(x) && Init(b + x) == b + Init(x);
    if Last(x).Close? { OuterInside(b, Init(x), depth + 1); }
    else if !Last(x).Open? { OuterInside(b, Init(x), depth); }
    else if depth > 0 { OuterInside(b, Init(x), depth - 1); }
  }

  lemma InsideKeepsVerdicts(a: seq<Token>, x: seq<Token>, t: Token)
    requires Level(x).Some?
    ensures Banned(a + [Open] + x, t) <==> Banned(x, t)
  {
    OwnInside(a, x);
    hide Own;
  }

  // ---------------------------------------------------------------- SET LOCAL

  lemma {:induction false} SpacesAt(s: string, i: nat)
    requires i < Spaces(s)
    ensures IsSpace(s[i])
  {
    if i == 0 {
    } else {
      SpacesAt(s[1..], i - 1);
    }
  }

  lemma {:induction false} NoKeyword(s: string, keywords: seq<Keyword>)
    requires forall k :: k in keywords ==> k.word != "" && !StartsWithWord(s, k.word)
    ensures FindKeyword(s, keywords) == None
  {
    if keywords == [] {
    } else {
      assert keywords[0] in keywords;
      NoKeyword(s, keywords[1..]);
    }
  }

  lemma LettersOf(s: string, word: string, i: nat)
    requires i < |word|
    ensures StartsWith(s, word) ==> i < |s| && Upper(s[i]) == Upper(word[i])
  {
    if StartsWith(s, word) { assert s[..|word|][i] == s[i]; }
  }

  lemma SetLetters(s: string)
    requires StartsWith(s, "SET")
    ensures |s| > 2 && s[0] in {'s', 'S'} && Upper(s[0]) == 'S' && Upper(s[2]) == 'T' && !StartsWith(s, "FOR")
  {
    LettersOf(s, "SET", 0);
    LettersOf(s, "SET", 2);
    LettersOf(s, "FOR", 0);
    hide StartsWith;
  }

  lemma NotThisKeyword(s: string, k: Keyword)
    requires k in KEYWORDS && |s| > 2 && Upper(s[0]) == 'S' && Upper(s[2]) == 'T'
    ensures k.word != "" && !StartsWithWord(s, k.word)
  {
    LettersOf(s, k.word, 0);
    LettersOf(s, k.word, 2);
    hide StartsWith, KEYWORDS, Upper;
  }

  /** No other word starts like SET. */
  lemma OnlySet(s: string)
    requires StartsWith(s, "SET")
    ensures FindKeyword(s, KEYWORDS) == None && !StartsWith(s, "FOR") && s[0] in {'s', 'S'}
  {
    SetLetters(s);
    hide StartsWith, StartsWithWord, KEYWORDS, FindKeyword, Upper;
    forall k | k in KEYWORDS ensures k.word != "" && !StartsWithWord(s, k.word) { NotThisKeyword(s, k); }
    NoKeyword(s, KEYWORDS);
  }

  lemma SpaceIsNoAttribute(s: string)
    requires s != "" && IsSpace(s[0])
    ensures !ColumnAttribute(s)
  {
    LettersOf(s, "NOT", 0);
    LettersOf(s, "DATA", 0);
    LettersOf(s, "DEFAULT", 0);
    LettersOf(s, "STATISTICS", 0);
    hide StartsWith;
  }

  /** SET, white space and LOCAL: accepted with one white-space character between the words. With more, the scanner
      takes all but one of them and no longer sees LOCAL, so the words count as a plain SET, although the lint names
      SET LOCAL as an accepted form. */
  lemma SetLocal(s: string, i: nat)
    requires i + 3 < |s| && (i == 0 || !IsWord(s[i - 1])) && StartsWith(s[i..], "SET")
    requires var n := Spaces(s[i + 3..]); n > 0 && StartsWithWord(s[i + 3..][n..], "LOCAL")
    ensures var n := Spaces(s[i + 3..]);
            LexemeAt(s, i) == if n == 1 then None else Some(Lexeme(i, i + 3 + (n - 1), Set(false)))
  {
    hide Head, StartsWith, StartsWithWord, WordHead, Spaces, FindKeyword, KEYWORDS, IsWord;
    var t := s[i..];
    assert t[3..] == s[i + 3..];
    OnlySet(t);
    SetHead(t);
    HeadIsWord(t);
  }

  /** The tokens of a scan that start in front of a position. */
  function UpTo(xs: seq<Lexeme>, at: nat): seq<Lexeme> {
    if xs == [] || xs[0].index >= at then [] else [xs[0]] + UpTo(xs[1..], at)
  }

  /** No token that starts in front of the position reaches over it. */
  ghost predicate Boundary(xs: seq<Lexeme>, at: nat) { forall x :: x in xs && x.index < at ==> x.end <= at }

  lemma {:induction false} NextIsFirst(s: string, from: nat, at: nat)
    requires from <= at <= |s|
    ensures match NextLexeme(s, from)
            case None => at < |s| ==> LexemeAt(s, at) == None
            case Some(x) => from <= x.index && (from <= at < x.index ==> LexemeAt(s, at) == None)
    decreases |s| - from
  {
    hide LexemeAt;
    if from < |s| && LexemeAt(s, from).Some? {
      LexemePlace(s, from);
    } else if from < at {
      NextIsFirst(s, from + 1, at);
    }
  }

  lemma NoLexemeBetween(s: string, from: nat, at: nat)
    requires from <= at <= |s| && (NextLexeme(s, from).None? || at <= NextLexeme(s, from).value.index)
    ensures Lex(s, from) == Lex(s, at)
  {
    hide LexemeAt, NextLexeme, Lex;
    forall j: nat | from <= j < at ensures LexemeAt(s, j) == None { NextIsFirst(s, from, j); }
    SkipLexemes(s, from, at);
  }

  lemma FirstOfScan(x: Lexeme, xs: seq<Lexeme>, at: nat)
    ensures UpTo([x] + xs, at) == if x.index >= at then [] else [x] + UpTo(xs, at)
    ensures Boundary([x] + xs, at) ==> Boundary(xs, at) && (x.index < at ==> x.end <= at)
  {
    assert ([x] + xs)[1..] == xs && x in [x] + xs;
    assert forall y :: y in xs ==> y in [x] + xs;
  }

  /** Where no token reaches over a position, the scan goes through it. */
  lemma {:induction false} LexThrough(s: string, from: nat, at: nat)
    requires from <= at <= |s| && Boundary(Lex(s, from), at)
    ensures Lex(s, from) == UpTo(Lex(s, from), at) + Lex(s, at)
    decreases |s| - from
  {
    hide LexemeAt, NextLexeme, Boundary, Lex, UpTo;
    LexUnfold(s, from);
    if NextLexeme(s, from).None? {
      NoLexemeBetween(s, from, at);
      NothingBefore(at);
    } else {
      var x := NextLexeme(s, from).value;
      var rest := Lex(s, x.end);
      FirstOfScan(x, rest, at);
      if x.index < at {
        LexThrough(s, x.end, at);
        Regroup([x], UpTo(rest, at), Lex(s, at));
      } else {
        NoLexemeBetween(s, from, at);
        Regroup([], [], Lex(s, at));
      }
    }
  }

  lemma LexUnfold(s: string, from: nat)
    requires from <= |s|
    ensures match NextLexeme(s, from)
            case None => Lex(s, from) == []
            case Some(x) => Lex(s, from) == [x] + Lex(s, x.end)
  {
    hide NextLexeme;
  }

  lemma NothingBefore(at: nat)
    ensures UpTo([], at) == []
  {
  }

  lemma Regroup(xs: seq<Lexeme>, ys: seq<Lexeme>, zs: seq<Lexeme>)
    ensures xs + (ys + zs) == xs + ys + zs && [] + zs == zs
  {
  }

  lemma {:induction false} LexIndices(s: string, from: nat, k: nat)
    requires from <= |s| && k < |Lex(s, from)|
    ensures Lex(s, from)[k].index >= from
    decreases |s| - from
  {
    hide LexemeAt, NextLexeme;
    if k == 0 {
    } else {
      var x := NextLexeme(s, from).value;
      assert Lex(s, from)[1..] == Lex(s, x.end);
      LexIndices(s, x.end, k - 1);
    }
  }

  lemma {:induction false} UpToIndices(xs: seq<Lexeme>, at: nat, k: nat)
    requires k < |UpTo(xs, at)|
    ensures UpTo(xs, at)[k].index < at
  {
    if k == 0 {
    } else {
      UpToIndices(xs[1..], at, k - 1);
    }
  }

  /** A position is reported exactly when a banned token stands there. */
  lemma {:induction false} BannedMember(xs: seq<Lexeme>, i: nat)
    ensures i in BannedIndices(xs)
            <==> exists k :: 0 <= k < |xs| && xs[k].index == i && Banned(Tokens(xs[..k]), xs[k].token)
  {
    hide Banned, Tokens;
    if xs == [] {
    } else {
      var n := |xs| - 1;
      BannedMember(xs[..n], i);
      assert forall k :: 0 <= k < n ==> xs[..n][k] == xs[k] && xs[..n][..k] == xs[..k];
    }
  }

  /** The position behind a prefix of tokens is reported exactly when the next token starts there and is banned. */
  lemma BannedNext(before: seq<Lexeme>, after: seq<Lexeme>, at: nat)
    requires forall k :: 0 <= k < |before| ==> before[k].index < at
    requires forall k :: 0 < k < |after| ==> after[k].index > at
    ensures at in BannedIndices(before + after)
            <==> after != [] && after[0].index == at && Banned(Tokens(before), after[0].token)
  {
    var xs, n := before + after, |before|;
    BannedMember(xs, at);
    hide Banned, Tokens, BannedIndices;
    assert xs[..n] == before;
    assert forall k :: 0 <= k < n ==> xs[k] == before[k];
    assert forall k :: n <= k < |xs| ==> xs[k] == after[k - n];
    if after != [] && after[0].index == at && Banned(Tokens(before), after[0].token) {
      assert xs[n] == after[0];
    }
  }

  /** SET, white space and LOCAL where a word may start and the scan gets to: reported exactly when more than one
      white-space character stands between the words and the statement open there is not exempt. The lint names SET
      LOCAL as an accepted form, whatever the white space. */
  lemma SetLocalVerdict(s: string, at: nat)
    requires at + 3 < |s| && (at == 0 || !IsWord(s[at - 1])) && StartsWith(s[at..], "SET")
    requires var n := Spaces(s[at + 3..]); n > 0 && StartsWithWord(s[at + 3..][n..], "LOCAL")
    requires Boundary(Lex(s, 0), at)
    ensures at in BannedIndices(Lex(s, 0))
            <==> Spaces(s[at + 3..]) > 1 && !Exempt(Top(Tokens(UpTo(Lex(s, 0), at))))
  {
    SetLocal(s, at);
    hide StartsWith, StartsWithWord, Spaces, IsWord, LexemeAt, Boundary, Top, Exempt, Tokens, UpTo, BannedIndices;
    LexThrough(s, 0, at);
    LexFrom(s, at);
    var before, after := UpTo(Lex(s, 0), at), Lex(s, at);
    forall k | 0 <= k < |before| ensures before[k].index < at { UpToIndices(Lex(s, 0), at, k); }
    hide Lex, NextLexeme;
    BannedNext(before, after, at);
  }

  /** Behind its first token a scan goes on behind the position. */
  lemma LexFrom(s: string, at: nat)
    requires at < |s|
    ensures forall k :: 0 < k < |Lex(s, at)| ==> Lex(s, at)[k].index > at
    ensures match LexemeAt(s, at)
            case None => Lex(s, at) == [] || Lex(s, at)[0].index > at
            case Some(x) => x.index == at && Lex(s, at) != [] && Lex(s, at)[0] == x
  {
    hide LexemeAt;
    forall k | 0 < k < |Lex(s, at)| ensures Lex(s, at)[k].index > at {
      var x := NextLexeme(s, at).value;
      assert Lex(s, at)[1..] == Lex(s, x.end);
      LexIndices(s, x.end, k - 1);
    }
    if LexemeAt(s, at).Some? {
      LexemePlace(s, at);
    } else if Lex(s, at) != [] {
      assert NextLexeme(s, at) == NextLexeme(s, at + 1);
    }
  }

  lemma LexemePlace(s: string, i: nat)
    requires i < |s| && LexemeAt(s, i).Some?
    ensures LexemeAt(s, i).value.index == i
  {
    hide Head;
  }

  /** A text that starts with SET, white space and LOCAL. */
  lemma SetLocalFirst(s: string)
    requires |s| > 3 && StartsWith(s, "SET")
    requires var n := Spaces(s[3..]); n > 0 && StartsWithWord(s[3..][n..], "LOCAL")
    ensures 0 in BannedIndices(Lex(s, 0)) <==> Spaces(s[3..]) > 1
  {
    assert s[0..] == s;
    hide StartsWith, StartsWithWord, Spaces, Lex, BannedIndices, Top, Exempt, Tokens, UpTo;
    SetLocalVerdict(s, 0);
    NothingUpTo(Lex(s, 0));
  }

  /** Two texts that differ in one blank: the second is reported at its start, the first is not. */
  lemma SetLocalTwice()
    ensures 0 !in BannedIndices(Lex("SET LOCAL x", 0)) && 0 in BannedIndices(Lex("SET  LOCAL x", 0))
  {
    hide *;
    assert "SET" + " LOCAL x" == "SET LOCAL x" && "SET" + "  LOCAL x" == "SET  LOCAL x";
    LocalBehind("SET LOCAL x", " LOCAL x", 1);
    LocalBehind("SET  LOCAL x", "  LOCAL x", 2);
    SetLocalFirst("SET LOCAL x");
    SetLocalFirst("SET  LOCAL x");
  }

  lemma LocalBehind(s: string, behind: string, n: nat)
    requires s == "SET" + behind && n in {1, 2} && behind == (if n == 1 then " " else "  ") + "LOCAL x"
    ensures |s| > 3 && StartsWith(s, "SET") && Spaces(s[3..]) == n && StartsWithWord(s[3..][n..], "LOCAL")
  {
    assert s[..3] == "SET" && s[3..] == behind;
    var rest := "LOCAL x";
    assert behind[n..] == rest && rest[..5] == "LOCAL";
    assert Spaces(rest) == 0 && behind[1..] == (if n == 1 then rest else " LOCAL x");
    assert " LOCAL x"[1..] == rest;
    assert Spaces(" LOCAL x") == 1;
  }

  lemma NothingUpTo(xs: seq<Lexeme>)
    ensures UpTo(xs, 0) == [] && Tokens([]) == [] && !Exempt(Top([]))
  {
  }

  lemma HeadIsWord(s: string)
    requires s != "" && s[0] !in {'-', '\'', '$', '(', ')', ';'}
    ensures Head(s, true) == WordHead(s)
  {
    hide WordHead;
  }

  lemma SetHead(t: string)
    requires |t| > 3 && StartsWith(t, "SET")
    requires var n := Spaces(t[3..]); n > 0 && StartsWithWord(t[3..][n..], "LOCAL")
    ensures var n := Spaces(t[3..]); WordHead(t) == if n == 1 then None else Some(Lexed(3 + (n - 1), Set(false)))
  {
    OnlySet(t);
    var n := Spaces(t[3..]);
    hide StartsWith, StartsWithWord, KEYWORDS, FindKeyword, ColumnAttribute, Spaces;
    if n > 1 {
      SpacesAt(t[3..], n - 1);
      assert t[3 + (n - 1)..] == t[3..][n - 1..];
      SpaceIsNoAttribute(t[3 + (n - 1)..]);
    }
  }

  // ---------------------------------------------------------------- what a text consists of

  /** A text as its author sees it. A Setting is the word SET and the white space behind it; attribute says whether one
      of the column attributes follows. */
  datatype Part =
    | Comment(text: string)
    | Literal(value: string)
    | Body(tag: string, text: string)
    | Mark(c: char)
    | Word(text: string, token: Token)
    | Lock(first: string, gap: string, second: string)
    | Setting(text: string, gap: string, attribute: bool)
    | Plain(text: string)
    | Other(c: char)

  function Printed(p: Part): string {
    match p
    case Comment(text) => "--" + text
    case Literal(value) => "'" + Doubled(value) + "'"
    case Body(tag, text) => "$" + tag + "$" + text + "$" + tag + "$"
    case Mark(c) => [c]
    case Word(text, token) => text
    case Lock(first, gap, second) => first + gap + second
    case Setting(text, gap, attribute) => text + gap
    case Plain(text) => text
    case Other(c) => [c]
  }

  function Print(ps: seq<Part>): string {
    if ps == [] then "" else Printed(ps[0]) + Print(ps[1..])
  }

  predicate InWord(c: char) { 'a' <= c <= 'z' || 'A' <= c <= 'Z' || '0' <= c <= '9' || c == '_' }

  predicate Blank(c: char) { c in {' ', '\t', '\r', '\n'} }

  predicate Gap(w: string) { w != "" && forall i :: 0 <= i < |w| ==> Blank(w[i]) }

  /** w is word, a text of capitals, in any mixture of cases. */
  predicate Spells(w: string, word: string) {
    |w| == |word| && forall i :: 0 <= i < |w| ==> w[i] == word[i] || w[i] as int == word[i] as int + 32
  }

  predicate WordEnds(rest: string) { rest == "" || !InWord(rest[0]) }

  /** The ways to write a keyword. */
  function Spellings(t: Token): set<string> {
    match t
    case Statement(With) => {"WITH"}
    case Statement(Select) => {"SELECT"}
    case Statement(Insert) => {"INSERT"}
    case Statement(Update) => {"UPDATE"}
    case Statement(Delete) => {"DELETE"}
    case Statement(Create) => {"CREATE"}
    case Statement(Alter) => {"ALTER"}
    case Routine => {"FUNCTION", "PROCEDURE"}
    case Table => {"TABLE"}
    case _ => {}
  }

  /** The words that mean something to the lint. */
  const RESERVED := ["WITH", "SELECT", "INSERT", "UPDATE", "DELETE", "CREATE", "ALTER", "FUNCTION", "PROCEDURE",
                     "TABLE", "FOR", "SET"]

  ghost predicate WordAt(u: string, i: nat, word: string) {
    i + |word| <= |u| && Spells(u[i..i + |word|], word) && WordEnds(u[i + |word|..])
  }

  /** first, n white-space characters, second. */
  ghost predicate Phrase(u: string, first: string, second: string, n: nat) {
    && n > 0 && |first| + n + |second| <= |u| && Spells(u[..|first|], first)
    && (forall i :: |first| <= i < |first| + n ==> IsSpace(u[i]))
    && Spells(u[|first| + n..|first| + n + |second|], second)
  }

  /** NOT NULL, DEFAULT, DATA TYPE or STATISTICS. */
  ghost predicate Attribute(u: string) {
    || (exists n: nat :: Phrase(u, "NOT", "NULL", n))
    || WordAt(u, 0, "DEFAULT")
    || (exists n: nat :: Phrase(u, "DATA", "TYPE", n) && WordAt(u, 4 + n, "TYPE"))
    || WordAt(u, 0, "STATISTICS")
  }

  predicate MarkAt(u: string, i: nat, mark: string) { i <= |u| && StartsWith(u[i..], mark) }

  /** What a part is, and what may stand behind it so that it ends where it does. */
  ghost predicate Fits(p: Part, rest: string) {
    match p
    case Comment(text) => '\n' !in text && (rest == "" || rest[0] == '\n')
    case Literal(value) => EndsLiteral(rest)
    case Body(tag, text) =>
      var mark := "$" + tag + "$";
      && (forall i :: 0 <= i < |tag| ==> InWord(tag[i]))
      && forall i :: 0 <= i < |text| ==> !MarkAt(text + mark, i, mark)
    case Mark(c) => c in {'(', ')', ';'}
    case Word(text, token) => WordEnds(rest) && exists word :: word in Spellings(token) && Spells(text, word)
    case Lock(first, gap, second) => Spells(first, "FOR") && Gap(gap) && Spells(second, "UPDATE") && WordEnds(rest)
    case Setting(text, gap, attribute) =>
      && Spells(text, "SET") && Gap(gap) && (rest == "" || !IsSpace(rest[0])) && !WordAt(rest, 0, "LOCAL")
      && (attribute <==> Attribute(rest))
    case Plain(text) =>
      && text != "" && (forall i :: 0 <= i < |text| ==> InWord(text[i])) && WordEnds(rest)
      && forall word :: word in RESERVED ==> !Spells(text, word)
    case Other(c) => !InWord(c) && c !in {'-', '\'', '$', '(', ')', ';'}
  }

  ghost predicate Fitting(ps: seq<Part>, rest: string) {
    ps == [] || (Fits(ps[0], Print(ps[1..]) + rest) && Fitting(ps[1..], rest))
  }

  function TokenOf(p: Part): Option<Token> {
    match p
    case Comment(_) => Some(Opaque)
    case Literal(_) => Some(Opaque)
    case Body(_, _) => Some(Opaque)
    case Mark(c) => Some(if c == '(' then Open else if c == ')' then Close else Semicolon)
    case Word(_, token) => Some(token)
    case Lock(_, _, _) => Some(ForUpdate)
    case Setting(_, _, attribute) => Some(Set(attribute))
    case Plain(_) => None
    case Other(_) => None
  }

  function TokensOf(ps: seq<Part>): seq<Token> {
    if ps == [] then []
    else (match TokenOf(ps[0]) case Some(t) => [t] case None => []) + TokensOf(ps[1..])
  }

  // ---------------------------------------------------------------- words in any case

  predicate IsCapital(c: char) { 'A' <= c <= 'Z' }

  predicate Capitals(w: string) { w != "" && forall i :: 0 <= i < |w| ==> IsCapital(w[i]) }

  lemma SpellsMeans(s: string, word: string)
    requires Capitals(word)
    ensures StartsWith(s, word) <==> |word| <= |s| && Spells(s[..|word|], word)
  {
  }

  lemma WordMeans(s: string, word: string)
    requires Capitals(word)
    ensures StartsWithWord(s, word) <==> WordAt(s, 0, word)
  {
    SpellsMeans(s, word);
    hide StartsWith, Spells;
    if |word| <= |s| { assert s[0..0 + |word|] == s[..|word|]; }
  }

  lemma KeywordCapitals(k: Keyword)
    requires k in KEYWORDS
    ensures Capitals(k.word) && k.word[0] in {'W', 'S', 'I', 'U', 'D', 'C', 'A', 'F', 'P', 'T'}
    ensures k.word[0] == 'F' ==> |k.word| > 1 && k.word[1] == 'U'
  {
  }

  /** A text starts with at most one word of capitals. */
  lemma OneWord(s: string, v: string, w: string)
    requires Capitals(v) && Capitals(w) && StartsWithWord(s, v) && StartsWithWord(s, w)
    ensures v == w
  {
    if |v| < |w| { LettersOf(s, w, |v|); }
    if |w| < |v| { LettersOf(s, v, |w|); }
    forall i | 0 <= i < |v| && |v| == |w| ensures v[i] == w[i] {
      LettersOf(s, v, i);
      LettersOf(s, w, i);
    }
  }

  lemma {:induction false} Finds(s: string, keywords: seq<Keyword>, k: Keyword)
    requires k in keywords && StartsWithWord(s, k.word)
    requires forall j :: j in keywords ==> j.word != "" && Capitals(j.word) && (j.word == k.word ==> j == k)
    ensures FindKeyword(s, keywords) == Some(k)
  {
    hide StartsWithWord, Capitals;
    assert Capitals(keywords[0].word) by { assert keywords[0] in keywords; }
    if StartsWithWord(s, keywords[0].word) {
      OneWord(s, keywords[0].word, k.word);
    } else {
      Finds(s, keywords[1..], k);
    }
  }

  lemma FindsWord(s: string, k: Keyword)
    requires k in KEYWORDS && StartsWithWord(s, k.word)
    requires forall j :: j in KEYWORDS && j.word == k.word ==> j == k
    ensures FindKeyword(s, KEYWORDS) == Some(k)
  {
    hide StartsWithWord, FindKeyword, Capitals, KEYWORDS;
    forall j | j in KEYWORDS ensures j.word != "" && Capitals(j.word) { KeywordCapitals(j); }
    Finds(s, KEYWORDS, k);
  }

  lemma KeywordNames(k: Keyword)
    requires k in KEYWORDS
    ensures forall j :: j in KEYWORDS && j.word == k.word ==> j == k
  {
    forall j | j in KEYWORDS && j.word == k.word ensures j == k {
      ByFirst(k);
      ByFirst(j);
    }
  }

  /** No two keywords start with the same letter. */
  function Starting(c: char): Keyword {
    if c == 'W' then KEYWORDS[0] else if c == 'S' then KEYWORDS[1] else if c == 'I' then KEYWORDS[2]
    else if c == 'U' then KEYWORDS[3] else if c == 'D' then KEYWORDS[4] else if c == 'C' then KEYWORDS[5]
    else if c == 'A' then KEYWORDS[6] else if c == 'F' then KEYWORDS[7] else if c == 'P' then KEYWORDS[8]
    else KEYWORDS[9]
  }

  lemma ByFirst(k: Keyword)
    requires k in KEYWORDS
    ensures k.word != "" && k == Starting(k.word[0])
  {
  }

  lemma InTable(word: string, t: Token)
    requires word in Spellings(t)
    ensures Keyword(word, t) in KEYWORDS && Capitals(word)
  {
    var i := match t
             case Statement(With) => 0 case Statement(Select) => 1 case Statement(Insert) => 2
             case Statement(Update) => 3 case Statement(Delete) => 4 case Statement(Create) => 5
             case Statement(Alter) => 6
             case Routine => if word == "FUNCTION" then 7 else 8
             case _ => 9;
    assert KEYWORDS[i] == Keyword(word, t);
    KeywordCapitals(Keyword(word, t));
  }

  lemma {:induction false} SpacesOf(gap: string, rest: string)
    requires (forall i :: 0 <= i < |gap| ==> Blank(gap[i])) && (rest == "" || !IsSpace(rest[0]))
    ensures Spaces(gap + rest) == |gap|
  {
    if gap == "" {
      assert gap + rest == rest;
    } else {
      assert (gap + rest)[1..] == gap[1..] + rest;
      SpacesOf(gap[1..], rest);
    }
  }

  lemma {:induction false} SpacesCount(u: string, n: nat)
    requires n <= |u| && (forall i :: 0 <= i < n ==> IsSpace(u[i])) && (n < |u| ==> !IsSpace(u[n]))
    ensures Spaces(u) == n
  {
    if n > 0 { SpacesCount(u[1..], n - 1); }
  }

  predicate IsPunctuation(c: char) { c in {'-', '\'', '$', '(', ')', ';'} }

  /** Letters that FOR, SET and the keywords start with. */
  predicate StartsSome(c: char) { Upper(c) in {'W', 'S', 'I', 'U', 'D', 'C', 'A', 'F', 'P', 'T'} }

  lemma NoWordHead(s: string)
    requires s != "" && !StartsSome(s[0])
    ensures WordHead(s) == None
  {
    forall k | k in KEYWORDS ensures k.word != "" && !StartsWithWord(s, k.word) {
      KeywordCapitals(k);
      LettersOf(s, k.word, 0);
    }
    hide KEYWORDS, FindKeyword, StartsWithWord;
    NoKeyword(s, KEYWORDS);
    LettersOf(s, "FOR", 0);
    LettersOf(s, "SET", 0);
    hide StartsWith;
  }

  /** No token starts at a character that is no punctuation and inside a word, or no first letter. */
  lemma NoTokenAt(s: string, j: nat)
    requires 0 < j < |s| && !IsPunctuation(s[j]) && (IsWord(s[j - 1]) || !StartsSome(s[j]))
    ensures LexemeAt(s, j) == None
  {
    assert s[j..][0] == s[j];
    hide WordHead, StartsSome;
    if !IsWord(s[j - 1]) { NoWordHead(s[j..]); }
  }

  lemma {:induction false} SkipLexemes(s: string, from: nat, target: nat)
    requires from <= target <= |s| && forall j: nat :: from <= j < target ==> LexemeAt(s, j) == None
    ensures NextLexeme(s, from) == NextLexeme(s, target) && Lex(s, from) == Lex(s, target)
    decreases target - from
  {
    hide LexemeAt, NextLexeme, Lex;
    if from < target {
      SkipLexeme(s, from);
      SkipLexemes(s, from + 1, target);
    }
  }

  lemma SkipLexeme(s: string, from: nat)
    requires from < |s| && LexemeAt(s, from) == None
    ensures NextLexeme(s, from) == NextLexeme(s, from + 1) && Lex(s, from) == Lex(s, from + 1)
  {
    hide LexemeAt;
  }

  lemma LexHere(s: string, i: nat, x: Lexeme)
    requires i < |s| && LexemeAt(s, i) == Some(x)
    ensures x.end <= |s| && Lex(s, i) == [x] + Lex(s, x.end)
  {
    assert NextLexeme(s, i) == Some(x);
    hide LexemeAt, NextLexeme;
  }

  // ---------------------------------------------------------------- what is scanned at a part

  lemma {:induction false} CommentHead(text: string, rest: string, boundary: bool)
    requires Fits(Comment(text), rest)
    ensures Head("--" + text + rest, boundary) == Some(Lexed(2 + |text|, Opaque))
  {
    var s := "--" + text + rest;
    LineLenOf(text, rest);
    assert s[2..] == text + rest;
    hide LineLen, StringLen, DollarLen, WordHead;
  }

  lemma {:induction false} LiteralHead(value: string, rest: string, boundary: bool)
    requires EndsLiteral(rest)
    ensures Head("'" + Doubled(value) + "'" + rest, boundary) == Some(Lexed(|Doubled(value)| + 2, Opaque))
  {
    var s := "'" + Doubled(value) + "'" + rest;
    StringLenOf(value, rest);
    assert s[1..] == Doubled(value) + "'" + rest;
    hide LineLen, StringLen, DollarLen, WordHead, Doubled, EndsLiteral;
  }

  lemma {:induction false} WordLenOf(tag: string, rest: string)
    requires (forall i :: 0 <= i < |tag| ==> InWord(tag[i])) && WordEnds(rest)
    ensures WordLen(tag + rest) == |tag|
  {
    if tag == "" {
      assert tag + rest == rest;
    } else {
      assert (tag + rest)[1..] == tag[1..] + rest;
      WordLenOf(tag[1..], rest);
    }
  }

  /** The first mark is the one behind text. */
  lemma {:induction false} MarkFound(text: string, mark: string, rest: string)
    requires mark != "" && forall i :: 0 <= i < |text| ==> !MarkAt(text + mark, i, mark)
    ensures UpToMark(text + mark + rest, mark) == Some(|text| + |mark|)
  {
    var s := text + mark + rest;
    if text == "" {
      assert s[..|mark|] == mark;
    } else {
      assert !StartsWith(s, mark) by {
        assert !MarkAt(text + mark, 0, mark);
        assert (text + mark)[0..] == text + mark && s[..|mark|] == (text + mark)[..|mark|];
      }
      forall i | 0 <= i < |text| - 1 ensures !MarkAt(text[1..] + mark, i, mark) {
        assert !MarkAt(text + mark, i + 1, mark);
        assert (text + mark)[i + 1..] == (text[1..] + mark)[i..];
      }
      MarkFound(text[1..], mark, rest);
      assert s[1..] == text[1..] + mark + rest;
      hide StartsWith;
    }
  }

  /** s is mark, tail; and mark is tag between two dollars. */
  predicate Opens(s: string, tag: string, mark: string, tail: string) {
    && s == mark + tail && |mark| == |tag| + 2 && mark[0] == '$' && mark[1..|tag| + 1] == tag && mark[|tag| + 1] == '$'
  }

  lemma {:induction false} BodyText(tag: string, text: string, rest: string, mark: string)
    requires mark == "$" + tag + "$"
    ensures Opens(Printed(Body(tag, text)) + rest, tag, mark, text + mark + rest)
  {
    var s, tail := Printed(Body(tag, text)) + rest, text + mark + rest;
    assert Printed(Body(tag, text)) == mark + (text + mark);
    assert s == mark + tail;
    hide Printed;
  }

  lemma {:induction false} DollarAt(s: string, tag: string, mark: string, tail: string, k: nat)
    requires Opens(s, tag, mark, tail) && UpToMark(tail, mark) == Some(k)
    requires forall i :: 0 <= i < |tag| ==> InWord(tag[i])
    ensures DollarLen(s) == Some(|mark| + k)
  {
    var behind := "$" + tail;
    assert s[1..] == tag + behind && s[|tag| + 1] == '$';
    assert s[..|tag| + 2] == mark && s[|tag| + 2..] == tail;
    assert WordEnds(behind);
    WordLenOf(tag, behind);
    hide WordLen, UpToMark, Opens, InWord;
  }

  lemma {:induction false} BodyHead(tag: string, text: string, rest: string, boundary: bool)
    requires Fits(Body(tag, text), rest)
    ensures Head(Printed(Body(tag, text)) + rest, boundary) == Some(Lexed(2 * |tag| + |text| + 4, Opaque))
  {
    hide MarkAt, Head, DollarLen, UpToMark, Printed, InWord;
    var mark := "$" + tag + "$";
    var s := Printed(Body(tag, text)) + rest;
    BodyText(tag, text, rest, mark);
    MarkFound(text, mark, rest);
    assert forall i :: 0 <= i < |tag| ==> InWord(tag[i]);
    assert s[0] == '$';
    hide Fits, Opens;
    DollarAt(s, tag, mark, text + mark + rest, |text| + |mark|);
    DollarIsHead(s, boundary);
  }

  lemma {:induction false} DollarIsHead(s: string, boundary: bool)
    requires s != "" && s[0] == '$' && DollarLen(s).Some?
    ensures Head(s, boundary) == Some(Lexed(DollarLen(s).value, Opaque))
  {
    hide WordHead, StringLen, LineLen, DollarLen;
  }

  lemma MarkHead(c: char, rest: string, boundary: bool)
    requires c in {'(', ')', ';'}
    ensures Head([c] + rest, boundary) == Some(Lexed(1, TokenOf(Mark(c)).value))
  {
    hide WordHead, StringLen, LineLen, UpToMark, WordLen;
  }

  lemma SpelledFirst(w: string, word: string, rest: string)
    requires Spells(w, word) && Capitals(word)
    ensures StartsWith(w + rest, word) && (w + rest)[..|word|] == w && (w + rest)[|word|..] == rest
    ensures WordEnds(rest) ==> StartsWithWord(w + rest, word)
    ensures w != "" && InWord(w[0]) && InWord(w[|w| - 1]) && IsWord(w[0])
    ensures forall i :: 0 <= i < |w| ==> InWord(w[i])
  {
    assert (w + rest)[..|word|] == w;
  }

  /** A reserved word that is not FOR or SET. */
  lemma KeywordHead(p: Part, rest: string)
    requires p.Word? && Fits(p, rest)
    ensures Head(p.text + rest, true) == Some(Lexed(|p.text|, p.token))
  {
    var word :| word in Spellings(p.token) && Spells(p.text, word);
    var k, s := Keyword(word, p.token), p.text + rest;
    InTable(word, p.token);
    SpelledFirst(p.text, word, rest);
    KeywordNames(k);
    KeywordCapitals(k);
    FindsWord(s, k);
    assert !StartsWith(s, "FOR") by {
      LettersOf(s, "FOR", 0);
      LettersOf(s, "FOR", 1);
      LettersOf(s, word, 0);
      if |word| > 1 { LettersOf(s, word, 1); }
    }
    hide KEYWORDS, FindKeyword, StartsWith, StartsWithWord, Capitals, Spellings, Spells, SetSpace;
    HeadIsWord(s);
  }

  lemma {:induction false} LockWords(first: string, gap: string, second: string, rest: string)
    requires Fits(Lock(first, gap, second), rest)
    ensures var tail := gap + (second + rest);
            && StartsWith(first + tail, "FOR") && |first| == 3 && IsWord(first[0]) && gap != ""
            && Spaces(tail) == |gap| && StartsWithWord(second + rest, "UPDATE") && |second| == 6
  {
    SpelledFirst(first, "FOR", gap + (second + rest));
    SpelledFirst(second, "UPDATE", rest);
    SpacesOf(gap, second + rest);
    hide StartsWith, StartsWithWord, Spaces;
  }

  lemma {:induction false} LockHead(first: string, gap: string, second: string, rest: string)
    requires Fits(Lock(first, gap, second), rest)
    ensures Head(first + gap + second + rest, true) == Some(Lexed(|first| + |gap| + |second|, ForUpdate))
  {
    hide Fits, StartsWith, StartsWithWord, Spaces, WordHead, Head, IsWord;
    LockWords(first, gap, second, rest);
    var tail := second + rest;
    var s := first + (gap + tail);
    GapBehind(first, gap, tail);
    assert first + gap + second + rest == s;
    ForUpdateHere(s, |gap|);
    WordAtHead(s);
  }

  lemma WordAtHead(s: string)
    requires s != "" && IsWord(s[0])
    ensures Head(s, true) == WordHead(s)
  {
    hide WordHead;
  }

  lemma GapBehind(first: string, gap: string, rest: string)
    requires first != ""
    ensures var s := first + (gap + rest);
            && s[|first|..] == gap + rest && s[|first| + |gap|..] == rest && s[0] == first[0]
            && s == first + gap + rest
  {
  }

  lemma ForUpdateHere(s: string, n: nat)
    requires |s| >= 3 + n && n > 0 && StartsWith(s, "FOR") && Spaces(s[3..]) == n
    requires StartsWithWord(s[3 + n..], "UPDATE")
    ensures WordHead(s) == Some(Lexed(3 + n + 6, ForUpdate))
  {
    assert StartsWith(s[3 + n..], "UPDATE");
    hide StartsWith, Spaces, FindKeyword, KEYWORDS, SetSpace;
  }

  lemma PhraseIsTight(u: string, first: string, second: string, n: nat)
    requires Capitals(second) && Phrase(u, first, second, n)
    ensures n == Spaces(u[|first|..]) && u[|first|..][n..] == u[|first| + n..]
  {
    var tail := u[|first|..];
    assert u[|first| + n..|first| + n + |second|][0] == u[|first| + n] == tail[n];
    forall i | 0 <= i < n ensures IsSpace(tail[i]) { assert tail[i] == u[|first| + i]; }
    assert IsCapital(second[0]);
    hide Capitals, Phrase;
    SpacesCount(tail, n);
  }

  lemma PhraseMeans(u: string, first: string, second: string)
    requires Capitals(first) && Capitals(second)
    ensures TwoWords(u, first, second) <==> exists n: nat :: Phrase(u, first, second, n)
    ensures TwoWords(u, first, second) ==> Phrase(u, first, second, Spaces(u[|first|..]))
  {
    if TwoWords(u, first, second) { PhraseFound(u, first, second); }
    if n: nat :| Phrase(u, first, second, n) { PhraseRead(u, first, second, n); }
    hide Spells, StartsWith, Capitals, Phrase, Spaces;
  }

  lemma PhraseFound(u: string, first: string, second: string)
    requires Capitals(first) && Capitals(second) && TwoWords(u, first, second)
    ensures Phrase(u, first, second, Spaces(u[|first|..]))
  {
    SpellsMeans(u, first);
    hide Spells, StartsWith, Capitals;
    var tail := u[|first|..];
    var n := Spaces(tail);
    forall i | |first| <= i < |first| + n ensures IsSpace(u[i]) {
      SpacesAt(tail, i - |first|);
      assert tail[i - |first|] == u[i];
    }
    SpellsMeans(u[|first| + n..], second);
    assert u[|first| + n..][..|second|] == u[|first| + n..|first| + n + |second|];
  }

  lemma PhraseRead(u: string, first: string, second: string, n: nat)
    requires Capitals(first) && Capitals(second) && Phrase(u, first, second, n)
    ensures TwoWords(u, first, second)
  {
    SpellsMeans(u, first);
    PhraseIsTight(u, first, second, n);
    SpellsMeans(u[|first| + n..], second);
    assert u[|first| + n..][..|second|] == u[|first| + n..|first| + n + |second|];
    hide Spells, StartsWith, Capitals, Spaces;
  }

  /** What the second expression of the lint accepts behind SET. */
  lemma AttributeMeans(u: string)
    ensures ColumnAttribute(u) <==> Attribute(u)
  {
    assert Capitals("NOT") && Capitals("NULL") && Capitals("DATA") && Capitals("TYPE");
    assert Capitals("DEFAULT") && Capitals("STATISTICS");
    PhraseMeans(u, "NOT", "NULL");
    PhraseMeans(u, "DATA", "TYPE");
    WordMeans(u, "DEFAULT");
    WordMeans(u, "STATISTICS");
    hide Capitals, Phrase, WordAt, StartsWithWord, Spaces;
    DataType(u);
    hide TwoWords;
  }

  lemma DataType(u: string)
    ensures TwoWords(u, "DATA", "TYPE") && StartsWithWord(u[4 + Spaces(u[4..])..], "TYPE")
            <==> exists n: nat :: Phrase(u, "DATA", "TYPE", n) && WordAt(u, 4 + n, "TYPE")
  {
    assert Capitals("DATA") && Capitals("TYPE");
    PhraseMeans(u, "DATA", "TYPE");
    hide Capitals, TwoWords;
    forall n: nat | Phrase(u, "DATA", "TYPE", n)
      ensures n == Spaces(u[4..]) && (WordAt(u, 4 + n, "TYPE") <==> StartsWithWord(u[4 + n..], "TYPE"))
    {
      assert Capitals("TYPE") by { CapitalsOfType(); }
      PhraseIsTight(u, "DATA", "TYPE", n);
      WordMeans(u[4 + n..], "TYPE");
      WordThere(u, 4 + n, "TYPE");
    }
    hide Phrase, WordAt, StartsWithWord, Spaces;
  }

  lemma CapitalsOfType()
    ensures Capitals("TYPE")
  {
  }

  lemma WordThere(u: string, i: nat, word: string)
    requires i <= |u|
    ensures WordAt(u, i, word) <==> WordAt(u[i..], 0, word)
  {
    if i + |word| <= |u| {
      assert u[i..i + |word|] == u[i..][0..0 + |word|] && u[i + |word|..] == u[i..][0 + |word|..];
    }
    hide Spells, WordEnds;
  }

  lemma {:induction false} SettingHead(text: string, gap: string, attribute: bool, rest: string)
    requires Fits(Setting(text, gap, attribute), rest)
    ensures Head(text + gap + rest, true) == Some(Lexed(|text| + |gap|, Set(attribute)))
  {
    assert Capitals("SET") && Capitals("LOCAL");
    SpelledFirst(text, "SET", gap + rest);
    SpacesOf(gap, rest);
    WordMeans(rest, "LOCAL");
    AttributeMeans(rest);
    GapBehind(text, gap, rest);
    hide Capitals, Spells, WordAt, StartsWith, StartsWithWord, Spaces, Attribute, ColumnAttribute, WordHead;
    var s := text + (gap + rest);
    SetHere(s, |gap|);
    HeadIsWord(s);
  }

  lemma {:induction false} SetHere(s: string, n: nat)
    requires |s| >= 3 + n && n > 0 && StartsWith(s, "SET") && Spaces(s[3..]) == n
    requires !StartsWithWord(s[3 + n..], "LOCAL")
    ensures WordHead(s) == Some(Lexed(3 + n, Set(ColumnAttribute(s[3 + n..]))))
  {
    OnlySet(s);
    assert s[3..][n..] == s[3 + n..];
    hide StartsWith, StartsWithWord, Spaces, ColumnAttribute, FindKeyword, KEYWORDS;
  }

  /** A word of its own is no reserved word it does not spell. */
  lemma {:induction false} NotThisWord(text: string, rest: string, word: string)
    requires Capitals(word) && !Spells(text, word) && WordEnds(rest)
    requires forall i :: 0 <= i < |text| ==> InWord(text[i])
    ensures !StartsWithWord(text + rest, word)
  {
    if StartsWithWord(text + rest, word) { SameExtent(text, rest, word); }
  }

  lemma {:induction false} SameExtent(text: string, rest: string, word: string)
    requires Capitals(word) && (forall i :: 0 <= i < |text| ==> InWord(text[i])) && WordEnds(rest)
    requires StartsWithWord(text + rest, word)
    ensures Spells(text, word)
  {
    var s, n := text + rest, |word|;
    WordMeans(s, word);
    var w := s[0..0 + n];
    assert forall i :: 0 <= i < n ==> IsCapital(word[i]) && InWord(w[i]);
    hide Capitals, StartsWithWord, InWord, IsCapital;
    if n <= |text| { assert s[n..] == text[n..] + rest; }
    WordGoesOn(text, rest, n);
    var more := rest[..n - |text|];
    assert w == text + more;
    forall i | 0 <= i < |more| ensures InWord(rest[i]) { assert w[|text| + i] == rest[i]; }
    NoWordThere(rest, |more|);
    assert w == text;
  }

  lemma WordGoesOn(text: string, rest: string, n: nat)
    requires (forall i :: 0 <= i < |text| ==> InWord(text[i])) && n <= |text + rest| && WordEnds((text + rest)[n..])
    ensures n >= |text|
  {
    if n <= |text| { assert (text + rest)[n..] == text[n..] + rest; }
  }

  lemma NoWordThere(rest: string, n: nat)
    requires WordEnds(rest) && n <= |rest| && forall i :: 0 <= i < n ==> InWord(rest[i])
    ensures n == 0
  {
  }

  lemma {:induction false} PlainNoKeyword(text: string, rest: string)
    requires Fits(Plain(text), rest)
    ensures FindKeyword(text + rest, KEYWORDS) == None
    ensures !StartsWithWord(text + rest, "FOR") && !StartsWithWord(text + rest, "SET")
  {
    hide Capitals, Spells, StartsWithWord, KEYWORDS, RESERVED, FindKeyword;
    var s := text + rest;
    forall k | k in KEYWORDS ensures k.word != "" && !StartsWithWord(s, k.word) {
      KeywordCapitals(k);
      InReserved(k);
      NotThisWord(text, rest, k.word);
    }
    ForAndSet();
    NotThisWord(text, rest, "FOR");
    NotThisWord(text, rest, "SET");
    NoKeyword(s, KEYWORDS);
  }

  lemma {:induction false} PlainHead(text: string, rest: string)
    requires Fits(Plain(text), rest)
    ensures Head(text + rest, true) == None
  {
    var s := text + rest;
    assert s[0] == text[0] && IsWord(s[0]);
    PlainNoKeyword(text, rest);
    hide Fits, StartsWithWord, StartsWith, FindKeyword, Spaces, Head;
    WordAtHead(s);
    if StartsWith(s, "FOR") { SpaceEnds(s, "FOR"); }
    if StartsWith(s, "SET") { SpaceEnds(s, "SET"); }
  }

  lemma InReserved(k: Keyword)
    requires k in KEYWORDS
    ensures k.word in RESERVED
  {
    ByFirst(k);
    assert RESERVED[0] == "WITH" && RESERVED[1] == "SELECT" && RESERVED[2] == "INSERT" && RESERVED[3] == "UPDATE";
    assert RESERVED[4] == "DELETE" && RESERVED[5] == "CREATE" && RESERVED[6] == "ALTER" && RESERVED[7] == "FUNCTION";
    assert RESERVED[8] == "PROCEDURE" && RESERVED[9] == "TABLE";
  }

  lemma ForAndSet()
    ensures Capitals("FOR") && Capitals("SET") && "FOR" in RESERVED && "SET" in RESERVED
  {
    assert RESERVED[10] == "FOR" && RESERVED[11] == "SET";
  }

  /** A word with white space behind it ends there. */
  lemma {:induction false} SpaceEnds(s: string, word: string)
    requires !StartsWithWord(s, word) && StartsWith(s, word)
    ensures Spaces(s[|word|..]) == 0
  {
    assert |s| > |word| && IsWord(s[|word|]) && s[|word|..][0] == s[|word|];
    assert !IsSpace(s[|word|]);
  }

  lemma OtherHead(c: char, rest: string, boundary: bool)
    requires Fits(Other(c), rest)
    ensures Head([c] + rest, boundary) == None
  {
    var s := [c] + rest;
    assert s[0] == c;
    hide WordHead;
    NoWordHead(s);
  }

  // ---------------------------------------------------------------- printing and scanning

  /** Parts that start with a word character, and so need a boundary in front. */
  predicate Wordy(p: Part) { p.Word? || p.Lock? || p.Setting? || p.Plain? }

  function Found(t: Option<Token>, at: nat, end: nat): seq<Lexeme> {
    match t case Some(token) => [Lexeme(at, end, token)] case None => []
  }

  lemma {:induction false} PartHead(p: Part, rest: string, boundary: bool)
    requires Fits(p, rest) && Printed(p) + rest != "" && (Wordy(p) ==> boundary)
    ensures Head(Printed(p) + rest, boundary)
            == match TokenOf(p) case Some(t) => Some(Lexed(|Printed(p)|, t)) case None => None
  {
    hide Head, Spells, WordAt, Attribute, MarkAt, EndsLiteral, WordEnds, InWord, Spellings;
    match p
    case Comment(text) => CommentHead(text, rest, boundary);
    case Literal(value) => LiteralHead(value, rest, boundary);
    case Body(tag, text) => BodyHead(tag, text, rest, boundary);
    case Mark(c) => MarkHead(c, rest, boundary);
    case Word(text, token) => KeywordHead(p, rest);
    case Lock(first, gap, second) => LockHead(first, gap, second, rest);
    case Setting(text, gap, attribute) => SettingHead(text, gap, attribute, rest);
    case Plain(text) => PlainHead(text, rest);
    case Other(c) => OtherHead(c, rest, boundary);
  }

  predicate StartsInWord(s: string) { s != "" && InWord(s[0]) }

  predicate EndsInWord(s: string) { s != "" && InWord(s[|s| - 1]) }

  /** A part that starts with a word character is wordy; one that ends with one has no other behind it. */
  lemma {:induction false} PartEdges(p: Part, rest: string)
    requires Fits(p, rest)
    ensures Printed(p) != "" && (Wordy(p) <==> StartsInWord(Printed(p)))
    ensures EndsInWord(Printed(p)) ==> !StartsInWord(rest)
  {
    match p
    case Word(text, token) =>
      var word :| word in Spellings(token) && Spells(text, word);
      InTable(word, token);
      SpelledFirst(text, word, rest);
    case Lock(first, gap, second) =>
      assert Capitals("FOR");
      SpelledFirst(first, "FOR", "");
      assert Printed(p)[0] == first[0];
    case Setting(text, gap, attribute) =>
      assert Capitals("SET");
      SpelledFirst(text, "SET", "");
      assert Printed(p)[0] == text[0] && Printed(p)[|Printed(p)| - 1] == gap[|gap| - 1];
    case Comment(text) =>
    case Literal(value) =>
    case Body(tag, text) => assert Printed(p)[|Printed(p)| - 1] == '$';
    case Mark(c) =>
    case Plain(text) =>
    case Other(c) =>
  }

  predicate Joint(x: string, y: string) { !EndsInWord(x) || !StartsInWord(y) }

  lemma JointBehind(x: string, w: string, rest: string)
    requires w != "" && (EndsInWord(w) ==> !StartsInWord(rest))
    ensures Joint(x + w, rest)
  {
    assert (x + w)[|x + w| - 1] == w[|w| - 1];
  }

  /** Inside a word no token starts. */
  lemma {:induction false} PlainInside(x: string, text: string, rest: string, j: nat)
    requires (forall i :: 0 <= i < |text| ==> InWord(text[i])) && |x| < j < |x| + |text|
    ensures LexemeAt(x + text + rest, j) == None
  {
    var s := x + text + rest;
    assert s[j] == text[j - |x|] && s[j - 1] == text[j - |x| - 1];
    assert InWord(s[j]) && InWord(s[j - 1]);
    hide LexemeAt;
    NoTokenAt(s, j);
  }

  /** The token of a part is scanned where the part starts. */
  lemma {:induction false} PartLexeme(x: string, p: Part, rest: string)
    requires Fits(p, rest) && Joint(x, Printed(p) + rest) && Printed(p) != ""
    requires Wordy(p) <==> StartsInWord(Printed(p))
    ensures var s, end := x + Printed(p) + rest, |x| + |Printed(p)|;
            LexemeAt(s, |x|) == match TokenOf(p) case Some(t) => Some(Lexeme(|x|, end, t)) case None => None
  {
    var w := Printed(p);
    var s, at := x + w + rest, |x|;
    hide Fits, Printed, Head, Wordy, TokenOf;
    assert s[at..] == w + rest && (w + rest)[0] == w[0];
    if at > 0 { assert s[at - 1] == x[|x| - 1]; }
    PartHead(p, rest, at == 0 || !IsWord(s[at - 1]));
  }

  /** One part: its token comes first, and scanning goes on behind it. */
  lemma {:induction false} PartRead(x: string, p: Part, rest: string)
    requires Fits(p, rest) && Joint(x, Printed(p) + rest)
    ensures var s, end := x + Printed(p) + rest, |x| + |Printed(p)|;
            Lex(s, |x|) == Found(TokenOf(p), |x|, end) + Lex(s, end)
  {
    hide Fits, Printed, Joint, StartsInWord, EndsInWord, LexemeAt, Lex, NextLexeme, TokenOf, Wordy;
    PartEdges(p, rest);
    PartLexeme(x, p, rest);
    var s, at, end := x + Printed(p) + rest, |x|, |x| + |Printed(p)|;
    if TokenOf(p).Some? {
      LexHere(s, at, Lexeme(at, end, TokenOf(p).value));
    } else {
      forall j: nat | at <= j < end ensures LexemeAt(s, j) == None {
        if j > at { PartInside(x, p, rest, j); }
      }
      SkipLexemes(s, at, end);
      assert [] + Lex(s, end) == Lex(s, end);
    }
  }

  lemma {:induction false} PartInside(x: string, p: Part, rest: string, j: nat)
    requires Fits(p, rest) && TokenOf(p) == None && |x| < j < |x| + |Printed(p)|
    ensures LexemeAt(x + Printed(p) + rest, j) == None
  {
    hide LexemeAt, InWord;
    PlainInside(x, p.text, rest, j);
  }

  /** The tokens of a list of parts, where they stand. */
  function LexemesOf(ps: seq<Part>, at: nat): seq<Lexeme> {
    if ps == [] then []
    else
      var end := at + |Printed(ps[0])|;
      Found(TokenOf(ps[0]), at, end) + LexemesOf(ps[1..], end)
  }

  /** Wherever a list of parts stands, scanning finds its tokens and goes on behind it. */
  lemma {:induction false} LexPrinted(x: string, ps: seq<Part>, rest: string)
    requires Fitting(ps, rest) && Joint(x, Print(ps) + rest)
    ensures var s := x + Print(ps) + rest;
            Lex(s, |x|) == LexemesOf(ps, |x|) + Lex(s, |x| + |Print(ps)|)
    decreases |ps|
  {
    hide Lex, Fits, Printed, Joint, TokenOf, Found;
    var s := x + Print(ps) + rest;
    if ps == [] {
      assert [] + Lex(s, |x|) == Lex(s, |x|);
    } else {
      var w, tail := Printed(ps[0]), Print(ps[1..]) + rest;
      FourTexts(x, w, Print(ps[1..]), rest);
      PartRead(x, ps[0], tail);
      PartEdges(ps[0], tail);
      JointBehind(x, w, tail);
      LexPrinted(x + w, ps[1..], rest);
      Regroup(Found(TokenOf(ps[0]), |x|, |x| + |w|), LexemesOf(ps[1..], |x| + |w|), Lex(s, |x| + |Print(ps)|));
    }
  }

  lemma FourTexts(x: string, w: string, more: string, rest: string)
    ensures x + (w + more) + rest == x + w + (more + rest) && x + w + (more + rest) == x + w + more + rest
    ensures w + more + rest == w + (more + rest)
  {
  }

  lemma {:induction false} TokensOfLexemes(ps: seq<Part>, at: nat)
    ensures Tokens(LexemesOf(ps, at)) == TokensOf(ps)
  {
    hide Printed, TokenOf, Tokens, Found;
    if ps == [] {
      assert Tokens([]) == [] by { NoTokens(); }
    } else {
      var end := at + |Printed(ps[0])|;
      TokensOfLexemes(ps[1..], end);
      TokensFound(TokenOf(ps[0]), at, end, LexemesOf(ps[1..], end));
    }
  }

  lemma NoTokens()
    ensures Tokens([]) == []
  {
  }

  lemma TokensFound(t: Option<Token>, at: nat, end: nat, more: seq<Lexeme>)
    ensures Tokens(Found(t, at, end) + more) == (match t case Some(token) => [token] case None => []) + Tokens(more)
  {
  }

  lemma {:induction false} Places(ps: seq<Part>, at: nat, rest: string, k: nat)
    requires Fitting(ps, rest) && k < |LexemesOf(ps, at)|
    ensures at <= LexemesOf(ps, at)[k].index < at + |Print(ps)|
  {
    hide Printed, TokenOf, Fits;
    if ps == [] {
    } else {
      PartEdges(ps[0], Print(ps[1..]) + rest);
      var n, end := |Found(TokenOf(ps[0]), 0, 0)|, at + |Printed(ps[0])|;
      if k >= n { Places(ps[1..], end, rest, k - n); }
    }
  }

  /** The scanner reads back what is printed, token for token, however each is written. */
  lemma {:induction false} PrintedTokens(ps: seq<Part>)
    requires Fitting(ps, "")
    ensures Tokens(Lex(Print(ps), 0)) == TokensOf(ps)
  {
    hide Fitting, Lex, LexemesOf, TokensOf, Print, Tokens;
    var s := Print(ps);
    LexPrinted("", ps, "");
    assert "" + s + "" == s;
    NoMore(s);
    assert LexemesOf(ps, 0) + [] == LexemesOf(ps, 0);
    TokensOfLexemes(ps, 0);
  }

  lemma NoMore(s: string)
    ensures Lex(s, |s|) == []
  {
  }

  // ---------------------------------------------------------------- the verdict on a text

  lemma {:induction false} JointAtEnd(x: string, ps: seq<Part>, rest: string)
    requires Fitting(ps, rest) && Joint(x, Print(ps) + rest)
    ensures Joint(x + Print(ps), rest)
    decreases |ps|
  {
    hide Fits, Printed, Joint;
    if ps == [] {
      assert x + "" == x && "" + rest == rest;
    } else {
      var w, tail := Printed(ps[0]), Print(ps[1..]) + rest;
      PartEdges(ps[0], tail);
      JointBehind(x, w, tail);
      JointAtEnd(x + w, ps[1..], rest);
      FourTexts(x, w, Print(ps[1..]), rest);
      assert x + Print(ps) == x + w + Print(ps[1..]);
    }
  }

  /** Is the text reported where p begins, with before in front and rest behind? */
  predicate Reported(before: seq<Part>, p: Part, rest: string) {
    |Print(before)| in BannedIndices(Lex(Print(before) + Printed(p) + rest, 0))
  }

  /** A SET is reported exactly when its tokens in front say so. */
  lemma {:induction false} SettingVerdict(before: seq<Part>, p: Part, rest: string)
    requires p.Setting? && Fits(p, rest) && Fitting(before, Printed(p) + rest)
    ensures Reported(before, p, rest) <==> Banned(TokensOf(before), Set(p.attribute))
  {
    hide Fits, Fitting, Printed, Joint, Lex, LexemesOf, Banned, Tokens, BannedIndices, Print;
    var x, w := Print(before), Printed(p);
    var s, at := x + w + rest, |x|;
    ScanTo(before, p, rest);
    PartEdges(p, rest);
    var xs, y, ys := LexemesOf(before, 0), Lexeme(at, at + |w|, Set(p.attribute)), Lex(s, at + |w|);
    forall k | 0 <= k < |xs| ensures xs[k].index < at { Places(before, 0, w + rest, k); }
    forall k | 0 < k < |[y] + ys| ensures ([y] + ys)[k].index > at {
      assert at + |w| <= |s|;
      LexIndices(s, at + |w|, k - 1);
    }
    BannedNext(xs, [y] + ys, at);
    TokensOfLexemes(before, 0);
  }

  /** The scan reaches the SET, whatever stands behind it. */
  lemma {:induction false} ScanTo(before: seq<Part>, p: Part, rest: string)
    requires p.Setting? && Fits(p, rest) && Fitting(before, Printed(p) + rest)
    ensures var s, at, end := Print(before) + Printed(p) + rest, |Print(before)|, |Print(before)| + |Printed(p)|;
            Lex(s, 0) == LexemesOf(before, 0) + ([Lexeme(at, end, Set(p.attribute))] + Lex(s, end))
  {
    hide Fits, Fitting, Printed, Lex, LexemesOf;
    var x, w := Print(before), Printed(p);
    assert "" + x == x && x + (w + rest) == x + w + rest;
    assert Joint("", x + (w + rest));
    LexPrinted("", before, w + rest);
    JointAtEnd("", before, w + rest);
    PartRead(x, p, rest);
  }

  lemma {:induction false} LevelOfOuter(ts: seq<Token>, depth: nat)
    requires Level(ts).Some? && depth < Level(ts).value
    ensures Outer(ts, depth).Some?
    ensures Level(Outer(ts, depth).value) == Some(Level(ts).value - depth - 1)
  {
    match Last(ts)
    case Close => LevelOfOuter(Init(ts), depth + 1);
    case Open => if depth > 0 { LevelOfOuter(Init(ts), depth - 1); }
    case _ => LevelOfOuter(Init(ts), depth);
  }

  lemma {:induction false} OuterBehind(a: seq<Token>, x: seq<Token>, depth: nat)
    requires Level(x).Some? && depth < Level(x).value
    ensures Outer(x, depth).Some? && Outer(a + x, depth) == Some(a + Outer(x, depth).value)
    decreases |x|
  {
    assert Last(a + x) == Last(x) && Init(a + x) == a + Init(x);
    match Last(x)
    case Close => OuterBehind(a, Init(x), depth + 1);
    case Open => if depth > 0 { OuterBehind(a, Init(x), depth - 1); }
    case _ => OuterBehind(a, Init(x), depth);
  }

  /** Text whose parentheses are closed adds its own telling tokens. */
  lemma {:induction false} OwnAppend(a: seq<Token>, x: seq<Token>)
    requires Level(x) == Some(0)
    ensures Own(a + x) == Own(a) + Own(x)
    decreases |x|
  {
    if x == [] {
      assert a + x == a;
    } else {
      assert Last(a + x) == Last(x) && Init(a + x) == a + Init(x);
      if Last(x).Close? {
        OuterBehind(a, Init(x), 0);
        LevelOfOuter(Init(x), 0);
        OwnAppend(a, Outer(Init(x), 0).value);
      } else {
        OwnAppend(a, Init(x));
      }
    }
  }

  /** Closed text in whose own statement no other begins. */
  predicate Continues(ts: seq<Token>) {
    Level(ts) == Some(0) && forall t :: t in Own(ts) ==> t.Routine? || t.Table?
  }

  /** In the statement that a keyword begins: exempt are UPDATE, CREATE of a routine and ALTER of a table. */
  predicate ExemptBehind(kind: Kind, ts: seq<Token>) {
    kind == Update || (kind == Create && Routine in Own(ts)) || (kind == Alter && Table in Own(ts))
  }

  lemma StatementVerdict(a: seq<Token>, kind: Kind, more: seq<Token>, attribute: bool)
    requires Continues(more) && kind != CreateFunction && kind != AlterTable
    ensures Banned(a + [Statement(kind)] + more, Set(attribute)) <==> !attribute && !ExemptBehind(kind, more)
  {
    var ts := a + [Statement(kind)];
    assert Last(ts) == Statement(kind) && Init(ts) == a;
    OwnAppend(ts, more);
    var own, n := Own(ts + more), |Own(a)|;
    assert own == Own(a) + [Statement(kind)] + Own(more);
    BannedMeaning(ts + more, attribute);
    hide Own, Level, Banned;
    forall j | n < j < |own| ensures own[j] == Own(more)[j - n - 1] && own[j] in Own(more) {}
    assert own[n] == Statement(kind) && LastKeyword(own, n);
    LastKeywordOnly(own, n);
    FollowedMeans(own, n, Own(more), Routine);
    FollowedMeans(own, n, Own(more), Table);
    hide LastKeyword, Followed;
  }

  lemma LastKeywordOnly(own: seq<Token>, n: nat)
    requires LastKeyword(own, n)
    ensures forall i: nat :: LastKeyword(own, i) ==> i == n
  {
  }

  lemma FollowedMeans(own: seq<Token>, n: nat, more: seq<Token>, t: Token)
    requires n < |own| && |own| == n + 1 + |more| && forall j :: n < j < |own| ==> own[j] == more[j - n - 1]
    ensures Followed(own, n, t) <==> t in more
  {
    if t in more {
      var i :| 0 <= i < |more| && more[i] == t;
      assert own[n + 1 + i] == t;
    }
  }

  lemma {:induction false} TokensAppend(xs: seq<Part>, ys: seq<Part>)
    ensures TokensOf(xs + ys) == TokensOf(xs) + TokensOf(ys)
  {
    hide TokenOf;
    if xs == [] {
      assert xs + ys == ys;
    } else {
      assert (xs + ys)[1..] == xs[1..] + ys;
      TokensAppend(xs[1..], ys);
    }
  }

  /** The verdict on SET in a statement, from the text itself: behind UPDATE, CREATE FUNCTION or PROCEDURE and ALTER
      TABLE it is accepted, behind any other keyword, ALTER FUNCTION among them, it is reported, unless a column
      attribute follows. Case, white space, comments, literals, bodies and closed groups do not matter. */
  lemma {:induction false} SetInStatement(a: seq<Part>, word: Part, between: seq<Part>, p: Part, rest: string)
    requires word.Word? && word.token.Statement? && word.token.kind != CreateFunction && word.token.kind != AlterTable
    requires Continues(TokensOf(between))
    requires p.Setting? && Fits(p, rest) && Fitting(a + [word] + between, Printed(p) + rest)
    ensures Reported(a + [word] + between, p, rest)
            <==> !p.attribute && !ExemptBehind(word.token.kind, TokensOf(between))
  {
    hide Fits, Fitting, Printed, Continues, ExemptBehind, Banned, Reported;
    SettingVerdict(a + [word] + between, p, rest);
    TokensAppend(a + [word], between);
    TokensAppend(a, [word]);
    assert TokensOf([word]) == [word.token];
    hide TokensOf;
    StatementVerdict(TokensOf(a), word.token.kind, TokensOf(between), p.attribute);
  }

  lemma {:induction false} LevelAppend(a: seq<Token>, x: seq<Token>)
    requires Level(a).Some? && Level(x).Some?
    ensures Level(a + x) == Some(Level(a).value + Level(x).value)
  {
    if x == [] {
      assert a + x == a;
    } else {
      assert Last(a + x) == Last(x) && Init(a + x) == a + Init(x);
      LevelAppend(a, Init(x));
    }
  }

  lemma ContinuesAppend(a: seq<Token>, t: Token, b: seq<Token>)
    requires Continues(a) && Continues(b) && (t.Routine? || t.Table?)
    ensures Continues(a + [t] + b) && Own(a + [t] + b) == Own(a) + [t] + Own(b)
  {
    assert Last(a + [t]) == t && Init(a + [t]) == a;
    assert Level(a + [t]) == Some(0) && Own(a + [t]) == Own(a) + [t];
    LevelAppend(a + [t], b);
    OwnAppend(a + [t], b);
    hide Own, Level;
  }

  /** CREATE ... FUNCTION or PROCEDURE ... SET is accepted; with any other verb but UPDATE, as in ALTER FUNCTION, the
      SET is reported. */
  lemma {:induction false} SetBehindRoutine(a: seq<Part>, verb: Part, mid: seq<Part>, routine: Part, more: seq<Part>,
                                            p: Part, rest: string)
    requires verb.Word? && verb.token.Statement? && verb.token.kind !in {Update, CreateFunction, AlterTable}
    requires routine.Word? && routine.token == Routine
    requires Continues(TokensOf(mid)) && Continues(TokensOf(more))
    requires Table !in Own(TokensOf(mid)) && Table !in Own(TokensOf(more))
    requires p.Setting? && !p.attribute && Fits(p, rest)
    requires Fitting(a + [verb] + (mid + [routine] + more), Printed(p) + rest)
    ensures Reported(a + [verb] + (mid + [routine] + more), p, rest) <==> verb.token.kind != Create
  {
    hide Fits, Fitting, Printed, Continues, Reported, Own, TokensOf, ExemptBehind;
    RoutineBetween(verb.token.kind, mid, routine, more);
    SetInStatement(a, verb, mid + [routine] + more, p, rest);
  }

  lemma {:induction false} RoutineBetween(kind: Kind, mid: seq<Part>, routine: Part, more: seq<Part>)
    requires kind != Update && TokenOf(routine) == Some(Routine)
    requires Continues(TokensOf(mid)) && Continues(TokensOf(more))
    requires Table !in Own(TokensOf(mid)) && Table !in Own(TokensOf(more))
    ensures var ts := TokensOf(mid + [routine] + more);
            Continues(ts) && (ExemptBehind(kind, ts) <==> kind == Create)
  {
    TokensAppend(mid + [routine], more);
    TokensAppend(mid, [routine]);
    assert TokensOf([routine]) == [Routine];
    hide TokensOf, Continues, Own;
    ContinuesAppend(TokensOf(mid), Routine, TokensOf(more));
  }

  /** And a SET that stands in no statement, at the start or behind a semicolon, is reported. */
  lemma {:induction false} SetAlone(a: seq<Part>, between: seq<Part>, p: Part, rest: string)
    requires (a == [] || a[|a| - 1] == Mark(';')) && Continues(TokensOf(between))
    requires p.Setting? && !p.attribute && Fits(p, rest) && Fitting(a + between, Printed(p) + rest)
    ensures Reported(a + between, p, rest)
  {
    hide Fits, Fitting, Printed, Continues, Banned, Reported, TokensOf;
    SettingVerdict(a + between, p, rest);
    TokensAppend(a, between);
    LastIsSemicolon(a);
    NoStatementVerdict(TokensOf(a), TokensOf(between));
  }

  lemma {:induction false} LastIsSemicolon(a: seq<Part>)
    requires a == [] || a[|a| - 1] == Mark(';')
    ensures TokensOf(a) == [] || Last(TokensOf(a)).Semicolon?
  {
    if a != [] {
      var n := |a| - 1;
      assert a == a[..n] + [Mark(';')];
      TokensAppend(a[..n], [Mark(';')]);
      assert TokensOf([Mark(';')]) == [Semicolon];
    }
  }

  lemma NoStatementVerdict(a: seq<Token>, more: seq<Token>)
    requires (a == [] || Last(a).Semicolon?) && Continues(more)
    ensures Banned(a + more, Set(false))
  {
    OwnAppend(a, more);
    var own, n := Own(a + more), |Own(a)|;
    assert n > 0 ==> own[n - 1].Semicolon?;
    assert a == [] ==> n == 0;
    assert a != [] ==> n > 0;
    BannedMeaning(a + more, false);
    hide Own, Level, Banned;
    forall j | n <= j < |own| ensures own[j] == Own(more)[j - n] && own[j] in Own(more) {}
    forall i: nat ensures !LastKeyword(own, i) {}
  }
}
