/**
 The named-to-positional parameter compiler of the SQL loader.

 The two regular expressions become scanners on the rest of the text. The compiler scans a masked
 copy, as the program does; its meaning is given on the token list of the original text.
 */
module NamedParams {
  import opened CharClasses
  import opened Common
  import opened SqlText

  predicate IsNameStart(c: char) { 'a' <= c <= 'z' || 'A' <= c <= 'Z' || c == '_' }
  predicate IsNameChar(c: char) { IsNameStart(c) || IsDigit(c) }

  // ---------------------------------------------------------------- comments and string literals

  /** Length of the comment or literal at the head of s; 0 when there is none. */
  function SpanLen(s: string): (n: nat)
    ensures n <= |s|
  {
    if |s| < 2 then 0
    else if s[0] == '-' && s[1] == '-' then 2 + LineLen(s[2..])
    else if s[0] == '/' && s[1] == '*' then
      match BlockLen(s[2..]) case None => 0 case Some(n) => n + 2
    else if s[0] == '\'' then
      match StringLen(s[1..]) case None => 0 case Some(n) => n + 1
    else 0
  }

  function BlankText(s: string): (t: string)
    ensures |t| == |s|
  {
    seq(|s|, i requires 0 <= i < |s| => if s[i] == '\n' then '\n' else ' ')
  }

  function Mask(s: string): (m: string)
    ensures |m| == |s|
  {
    if s == "" then ""
    else if SpanLen(s) > 0 then BlankText(s[..SpanLen(s)]) + Mask(s[SpanLen(s)..])
    else [s[0]] + Mask(s[1..])
  }

  // ---------------------------------------------------------------- placeholders

  function NameLen(s: string): (n: nat)
    ensures n <= |s|
  {
    if s == "" || !IsNameChar(s[0]) then 0 else 1 + NameLen(s[1..])
  }

  function DigitLen(s: string): (n: nat)
    ensures n <= |s|
  {
    if s == "" || !IsDigit(s[0]) then 0 else 1 + DigitLen(s[1..])
  }

  lemma {:induction false} NameLenIsMaximal(s: string)
    ensures forall i :: 0 <= i < NameLen(s) ==> IsNameChar(s[i])
    ensures NameLen(s) < |s| ==> !IsNameChar(s[NameLen(s)])
  {
    if s != "" && IsNameChar(s[0]) { NameLenIsMaximal(s[1..]); }
  }

  lemma {:induction false} DigitLenIsMaximal(s: string)
    ensures forall i :: 0 <= i < DigitLen(s) ==> IsDigit(s[i])
    ensures DigitLen(s) < |s| ==> !IsDigit(s[DigitLen(s)])
  {
    if s != "" && IsDigit(s[0]) { DigitLenIsMaximal(s[1..]); }
  }

  predicate NamedHead(s: string) { |s| > 1 && s[0] == '$' && IsNameStart(s[1]) }
  predicate NumberedHead(s: string) { |s| > 1 && s[0] == '$' && IsDigit(s[1]) }

  datatype Match = Match(index: nat, end: nat)

  /** The leftmost $name of m. */
  function NextMatch(m: string): (r: Option<Match>)
    ensures r.Some? ==> r.value.index + 1 < r.value.end <= |m|
  {
    if m == "" then None
    else if NamedHead(m) then Some(Match(0, 1 + NameLen(m[1..])))
    else match NextMatch(m[1..]) case None => None case Some(x) => Some(Match(x.index + 1, x.end + 1))
  }

  // ---------------------------------------------------------------- tokens

  datatype Token = Opaque(text: string) | Named(name: string) | Numbered(digits: string) | Plain(c: char)

  function Show(t: Token): string {
    match t
    case Opaque(text) => text
    case Named(name) => "$" + name
    case Numbered(digits) => "$" + digits
    case Plain(c) => [c]
  }

  function Render(ts: seq<Token>): string {
    if ts == [] then "" else Show(ts[0]) + Render(ts[1..])
  }

  function HeadToken(s: string): (t: Token)
    requires s != ""
    ensures 0 < |Show(t)| <= |s| && Show(t) == s[..|Show(t)|]
    ensures t.Named? ==> forall i :: 0 <= i < |t.name| ==> IsNameChar(t.name[i])
    ensures t.Numbered? ==> forall i :: 0 <= i < |t.digits| ==> IsDigit(t.digits[i])
  {
    if SpanLen(s) > 0 then Opaque(s[..SpanLen(s)])
    else if NamedHead(s) then
      var n := NameLen(s[1..]);
      NameLenIsMaximal(s[1..]);
      assert "$" + s[1..][..n] == s[..1 + n] && s[1..][..n] != "";
      Named(s[1..][..n])
    else if NumberedHead(s) then
      var n := DigitLen(s[1..]);
      DigitLenIsMaximal(s[1..]);
      assert "$" + s[1..][..n] == s[..1 + n];
      Numbered(s[1..][..n])
    else Plain(s[0])
  }

  function Rest(s: string): string requires s != "" { s[|Show(HeadToken(s))|..] }

  function Tokens(s: string): seq<Token>
    decreases |s|
  {
    if s == "" then [] else [HeadToken(s)] + Tokens(Rest(s))
  }

  // ---------------------------------------------------------------- the compiler's meaning

  function Decimal(n: nat): (d: string)
    ensures d != "" && forall i :: 0 <= i < |d| ==> IsDigit(d[i])
    ensures n > 0 ==> d[0] != '0'
  {
    var c := '0' + (n % 10) as char;
    if n < 10 then [c] else Decimal(n / 10) + [c]
  }

  function DecimalValue(d: string): nat {
    if d == "" then 0
    else
      var c := d[|d| - 1];
      10 * DecimalValue(d[..|d| - 1]) + if IsDigit(c) then (c - '0') as nat else 0
  }

  lemma {:induction false} DecimalValueOf(n: nat)
    ensures DecimalValue(Decimal(n)) == n
  {
    var d := Decimal(n);
    if n >= 10 {
      DecimalValueOf(n / 10);
      assert d[..|d| - 1] == Decimal(n / 10);
    }
  }

  /** The position of the first n; |names| when absent. */
  function IndexOf(names: seq<string>, n: string): (i: nat)
    ensures i <= |names| && (i < |names| <==> n in names) && (i < |names| ==> names[i] == n)
    ensures forall j :: 0 <= j < i ==> names[j] != n
  {
    if names == [] || names[0] == n then 0 else 1 + IndexOf(names[1..], n)
  }

  function AddName(names: seq<string>, n: string): seq<string> {
    if n in names then names else names + [n]
  }

  /** Every name of ts, once, in order of first occurrence, after those already collected. */
  function Collect(ts: seq<Token>, names: seq<string>): seq<string> {
    if ts == [] then names
    else Collect(ts[1..], if ts[0].Named? then AddName(names, ts[0].name) else names)
  }

  function RewriteToken(t: Token, names: seq<string>): Token {
    if t.Named? then Numbered(Decimal(IndexOf(names, t.name) + 1)) else t
  }

  function Rewrite(ts: seq<Token>, names: seq<string>): (rs: seq<Token>)
    ensures |rs| == |ts| && forall i :: 0 <= i < |ts| ==> rs[i] == RewriteToken(ts[i], names)
  {
    if ts == [] then [] else [RewriteToken(ts[0], names)] + Rewrite(ts[1..], names)
  }

  function ParamNames(raw: string): seq<string> { Collect(Tokens(raw), []) }

  function PositionalText(raw: string): string { Render(Rewrite(Tokens(raw), ParamNames(raw))) }

  // ---------------------------------------------------------------- what a text consists of

  /** A text as its author sees it. */
  datatype Part =
    | Line(comment: string)
    | Block(comment: string)
    | Quoted(value: string)
    | Param(name: string)
    | Positional(digits: string)
    | Other(c: char)

  function Printed(p: Part): (s: string)
    ensures s != ""
  {
    match p
    case Line(comment) => "--" + comment
    case Block(comment) => "/*" + comment + "*/"
    case Quoted(value) => "'" + Doubled(value) + "'"
    case Param(name) => "$" + name
    case Positional(digits) => "$" + digits
    case Other(c) => [c]
  }

  function Print(ps: seq<Part>): string {
    if ps == [] then "" else Printed(ps[0]) + Print(ps[1..])
  }

  predicate InNumber(c: char) { '0' <= c <= '9' }

  predicate InName(c: char) { 'a' <= c <= 'z' || 'A' <= c <= 'Z' || c == '_' || InNumber(c) }

  /** What may stand behind a part, so that it ends where it does: a line comment ends with its line; a block comment
      has no close within; a quote behind a literal is one that nothing closes; a name and a number end where they can.
      Any other character begins none of these. */
  predicate Fits(p: Part, rest: string) {
    match p
    case Line(comment) => '\n' !in comment && (rest == "" || rest[0] == '\n')
    case Block(comment) => !Closes(comment)
    case Quoted(value) => EndsLiteral(rest)
    case Param(name) =>
      && name != "" && !InNumber(name[0]) && (forall i :: 0 <= i < |name| ==> InName(name[i]))
      && (rest == "" || !InName(rest[0]))
    case Positional(digits) =>
      && digits != "" && (forall i :: 0 <= i < |digits| ==> InNumber(digits[i])) && (rest == "" || !InNumber(rest[0]))
    case Other(c) =>
      && (c == '\'' ==> '\'' !in rest)
      && (rest != "" ==>
            && !(c == '-' && rest[0] == '-') && !(c == '/' && rest[0] == '*' && Closes(rest[1..]))
            && !(c == '$' && InName(rest[0])))
  }

  predicate Fitting(ps: seq<Part>) { ps == [] || (Fits(ps[0], Print(ps[1..])) && Fitting(ps[1..])) }

  /** Comments and literals are opaque: whatever they say, it is no placeholder. */
  function TokenOf(p: Part): Token {
    match p
    case Param(name) => Named(name)
    case Positional(digits) => Numbered(digits)
    case Other(c) => Plain(c)
    case _ => Opaque(Printed(p))
  }

  function TokensOf(ps: seq<Part>): seq<Token> { if ps == [] then [] else [TokenOf(ps[0])] + TokensOf(ps[1..]) }

  lemma {:induction false} LineHead(w: string, rest: string)
    requires '\n' !in w && (rest == "" || rest[0] == '\n')
    ensures HeadToken("--" + w + rest) == Opaque("--" + w)
  {
    var s := "--" + w + rest;
    LineLenOf(w, rest);
    assert s[2..] == w + rest;
    assert s[..|w| + 2] == "--" + w;
    hide LineLen, BlockLen, StringLen;
  }

  lemma {:induction false} BlockHead(w: string, rest: string)
    requires !Closes(w)
    ensures HeadToken("/*" + w + "*/" + rest) == Opaque("/*" + w + "*/")
  {
    var s := "/*" + w + "*/" + rest;
    BlockLenOf(w, rest);
    assert s[2..] == w + "*/" + rest;
    assert s[..|w| + 4] == "/*" + w + "*/";
    hide LineLen, BlockLen, StringLen, Closes;
  }

  lemma {:induction false} QuotedHead(value: string, rest: string)
    requires EndsLiteral(rest)
    ensures HeadToken("'" + Doubled(value) + "'" + rest) == Opaque("'" + Doubled(value) + "'")
  {
    var w := "'" + Doubled(value) + "'";
    StringLenOf(value, rest);
    assert (w + rest)[1..] == Doubled(value) + "'" + rest;
    assert (w + rest)[..|w|] == w;
    hide LineLen, BlockLen, StringLen, Doubled, EndsLiteral;
  }

  lemma {:induction false} NameLenOf(name: string, rest: string)
    requires (forall i :: 0 <= i < |name| ==> InName(name[i])) && (rest == "" || !InName(rest[0]))
    ensures NameLen(name + rest) == |name|
  {
    if name == "" {
      assert name + rest == rest;
    } else {
      assert (name + rest)[1..] == name[1..] + rest;
      NameLenOf(name[1..], rest);
    }
  }

  lemma {:induction false} DigitLenOf(digits: string, rest: string)
    requires (forall i :: 0 <= i < |digits| ==> InNumber(digits[i])) && (rest == "" || !InNumber(rest[0]))
    ensures DigitLen(digits + rest) == |digits|
  {
    if digits == "" {
      assert digits + rest == rest;
    } else {
      assert (digits + rest)[1..] == digits[1..] + rest;
      DigitLenOf(digits[1..], rest);
    }
  }

  lemma {:induction false} ParamHead(name: string, rest: string)
    requires Fits(Param(name), rest)
    ensures HeadToken("$" + name + rest) == Named(name)
  {
    var s := "$" + name + rest;
    NameLenOf(name, rest);
    assert s[1..] == name + rest && s[1] == name[0];
    assert InName(name[0]);
    hide NameLen, DigitLen, Fits, LineLen, BlockLen, StringLen;
    assert s[1..][..|name|] == name;
  }

  lemma {:induction false} NumberHead(digits: string, rest: string)
    requires Fits(Positional(digits), rest)
    ensures HeadToken("$" + digits + rest) == Numbered(digits)
  {
    var s := "$" + digits + rest;
    DigitLenOf(digits, rest);
    assert s[1..] == digits + rest && s[1] == digits[0];
    assert InNumber(digits[0]);
    hide NameLen, DigitLen, Fits, LineLen, BlockLen, StringLen;
    assert s[1..][..|digits|] == digits;
  }

  lemma {:induction false} OtherHead(c: char, rest: string)
    requires Fits(Other(c), rest)
    ensures HeadToken([c] + rest) == Plain(c)
  {
    var s := [c] + rest;
    assert s[1..] == rest;
    if rest != "" {
      assert s[1] == rest[0] && s[2..] == rest[1..];
      BlockLenIs(rest[1..]);
      Unclosed(rest);
    }
  }

  lemma PartHead(p: Part, rest: string)
    requires Fits(p, rest)
    ensures HeadToken(Printed(p) + rest) == TokenOf(p)
  {
    hide HeadToken, Closes, EndsLiteral;
    match p
    case Quoted(value) => QuotedHead(value, rest);
    case Line(comment) => LineHead(comment, rest);
    case Block(comment) => BlockHead(comment, rest);
    case Param(name) => ParamHead(name, rest);
    case Positional(digits) => NumberHead(digits, rest);
    case Other(c) => OtherHead(c, rest);
  }

  /** Scanning a printed text finds its parts: each comment and each literal one opaque token, whatever it contains. */
  lemma {:induction false} ScanPrinted(ps: seq<Part>)
    requires Fitting(ps)
    ensures Tokens(Print(ps)) == TokensOf(ps)
  {
    if ps == [] {
    } else {
      var w, rest := Printed(ps[0]), Print(ps[1..]);
      PartHead(ps[0], rest);
      ScanPrinted(ps[1..]);
      assert Show(TokenOf(ps[0])) == w;
      SplitHead(w + rest);
      assert (w + rest)[|w|..] == rest;
      hide HeadToken, Fits, Printed;
    }
  }

  lemma PartAt(s: string) returns (p: Part)
    requires s != ""
    ensures |Printed(p)| <= |s| && Printed(p) == s[..|Printed(p)|] && Fits(p, s[|Printed(p)|..])
  {
    if SpanLen(s) > 0 {
      p := SpanAt(s);
    } else if NamedHead(s) || NumberedHead(s) {
      p := PlaceholderAt(s);
    } else {
      p := Other(s[0]);
      var rest := s[1..];
      Unclosed(rest);
      if rest != "" {
        assert s[1] == rest[0] && s[2..] == rest[1..];
        BlockLenIs(rest[1..]);
      }
    }
  }

  lemma SpanAt(s: string) returns (p: Part)
    requires SpanLen(s) > 0
    ensures |Printed(p)| <= |s| && Printed(p) == s[..|Printed(p)|] && Fits(p, s[|Printed(p)|..])
  {
    var n := SpanLen(s);
    if s[0] == '-' {
      p := LineAt(s, n);
    } else if s[0] == '/' {
      p := BlockAt(s, n);
    } else {
      var value := StringLenIs(s[1..]);
      p := Quoted(value);
      assert s[..n] == "'" + s[1..][..n - 1] && s[n..] == s[1..][n - 1..];
      assert "'" + (Doubled(value) + "'") == Printed(p);
    }
    hide Fits, Printed;
  }

  lemma {:induction false} LineAt(s: string, n: nat) returns (p: Part)
    requires |s| >= 2 && s[..2] == "--" && n == 2 + LineLen(s[2..])
    ensures p.Line? && Printed(p) == s[..n] && Fits(p, s[n..])
  {
    p := Line(s[2..n]);
    LineLenIs(s[2..]);
    assert s[2..][..n - 2] == s[2..n];
    hide LineLen, Closes, EndsLiteral;
  }

  lemma {:induction false} BlockAt(s: string, n: nat) returns (p: Part)
    requires |s| >= 2 && s[..2] == "/*" && BlockLen(s[2..]).Some? && n == 2 + BlockLen(s[2..]).value
    ensures p.Block? && Printed(p) == s[..n] && Fits(p, s[n..])
  {
    var body, m := s[2..], n - 4;
    BlockLenIs(body);
    hide BlockLen, LineLen, EndsLiteral;
    var w := body[..m];
    p := Block(w);
    forall i | 0 <= i < m ensures !ClosesAt(w, i) {
      assert !ClosesAt(body, i);
    }
    assert ClosesAt(body, m);
    assert s[..n] == s[..2] + w + [body[m], body[m + 1]];
  }

  lemma PlaceholderAt(s: string) returns (p: Part)
    requires SpanLen(s) == 0 && (NamedHead(s) || NumberedHead(s))
    ensures |Printed(p)| <= |s| && Printed(p) == s[..|Printed(p)|] && Fits(p, s[|Printed(p)|..])
  {
    var tail := s[1..];
    var n := if NamedHead(s) then NameLen(tail) else DigitLen(tail);
    NameLenIsMaximal(tail);
    DigitLenIsMaximal(tail);
    p := if NamedHead(s) then Param(tail[..n]) else Positional(tail[..n]);
    assert s[..1 + n] == "$" + tail[..n] && s[1 + n..] == tail[n..];
  }

  /** And every text is the print of such parts, so this says what the scanner does on all of them. */
  lemma {:induction false} PartsOf(s: string) returns (ps: seq<Part>)
    ensures Fitting(ps) && Print(ps) == s
    decreases |s|
  {
    if s == "" {
      ps := [];
    } else {
      var p := PartAt(s);
      var n := |Printed(p)|;
      var rest := PartsOf(s[n..]);
      ps := [p] + rest;
      assert ps[1..] == rest && s == s[..n] + s[n..];
      hide Fits, Printed;
    }
  }

  /** The names of the parameters, each at its first occurrence. */
  function NamesOf(ps: seq<Part>): seq<string> {
    if ps == [] then []
    else
      var before, p := NamesOf(ps[..|ps| - 1]), ps[|ps| - 1];
      if p.Param? && p.name !in before then before + [p.name] else before
  }

  /** The same parts, each parameter the position of its name. */
  predicate Numbering(ps: seq<Part>, qs: seq<Part>, names: seq<string>) {
    && |qs| == |ps|
    && forall i :: 0 <= i < |ps| ==>
         if ps[i].Param? then
           qs[i].Positional? && exists k | 0 <= k < |names| :: names[k] == ps[i].name && qs[i].digits == Decimal(k + 1)
         else qs[i] == ps[i]
  }

  lemma {:induction false} CollectSnoc(ts: seq<Token>, t: Token, names: seq<string>)
    ensures Collect(ts + [t], names)
            == if t.Named? then AddName(Collect(ts, names), t.name) else Collect(ts, names)
  {
    if ts == [] {
      assert ts + [t] == [t];
    } else {
      CollectSnoc(ts[1..], t, if ts[0].Named? then AddName(names, ts[0].name) else names);
      assert (ts + [t])[1..] == ts[1..] + [t];
    }
  }

  lemma {:induction false} TokensOfEach(ps: seq<Part>)
    ensures |TokensOf(ps)| == |ps| && forall i :: 0 <= i < |ps| ==> TokensOf(ps)[i] == TokenOf(ps[i])
  {
    if ps == [] {
    } else {
      TokensOfEach(ps[1..]);
    }
  }

  lemma {:induction false} NamesCollected(ps: seq<Part>)
    ensures Collect(TokensOf(ps), []) == NamesOf(ps)
  {
    if ps == [] {
    } else {
      var n := |ps| - 1;
      NamesCollected(ps[..n]);
      TokensOfSnoc(ps[..n], ps[n]);
      assert ps == ps[..n] + [ps[n]];
      CollectSnoc(TokensOf(ps[..n]), TokenOf(ps[n]), []);
      hide Collect, TokensOf;
    }
  }

  lemma {:induction false} TokensOfSnoc(ps: seq<Part>, p: Part)
    ensures TokensOf(ps + [p]) == TokensOf(ps) + [TokenOf(p)]
  {
    TokensOfEach(ps);
    TokensOfEach(ps + [p]);
    hide TokensOf, TokenOf;
  }

  function PositionOf(p: Part, names: seq<string>): Part {
    if p.Param? then Positional(Decimal(IndexOf(names, p.name) + 1)) else p
  }

  lemma {:induction false} RenderParts(ps: seq<Part>, names: seq<string>) returns (qs: seq<Part>)
    ensures |qs| == |ps| && forall i :: 0 <= i < |ps| ==> qs[i] == PositionOf(ps[i], names)
    ensures Print(qs) == Render(Rewrite(TokensOf(ps), names))
  {
    if ps == [] {
      qs := [];
    } else {
      var rest := RenderParts(ps[1..], names);
      qs := [PositionOf(ps[0], names)] + rest;
      assert qs[1..] == rest;
      var rs := Rewrite(TokensOf(ps), names);
      assert TokensOf(ps)[1..] == TokensOf(ps[1..]) && rs[1..] == Rewrite(TokensOf(ps[1..]), names);
      assert Show(rs[0]) == Printed(qs[0]);
    }
  }

  lemma {:induction false} NamesOfMembers(ps: seq<Part>)
    ensures Distinct(NamesOf(ps)) && forall n :: n in NamesOf(ps) <==> Param(n) in ps
  {
    if ps == [] {
    } else {
      var m := |ps| - 1;
      NamesOfMembers(ps[..m]);
      assert ps == ps[..m] + [ps[m]];
    }
  }

  /** What compiling means to the author of a text: the parameters are its parameter parts, none of them from a comment
      or a literal, in order of first use; and only they change, to the positions of their names. */
  lemma {:induction false} CompilesParts(ps: seq<Part>) returns (qs: seq<Part>)
    requires Fitting(ps)
    ensures ParamNames(Print(ps)) == NamesOf(ps)
    ensures forall n :: n in ParamNames(Print(ps)) <==> Param(n) in ps
    ensures Numbering(ps, qs, NamesOf(ps)) && PositionalText(Print(ps)) == Print(qs)
  {
    ScanPrinted(ps);
    NamesCollected(ps);
    NamesOfMembers(ps);
    qs := RenderParts(ps, NamesOf(ps));
    hide Tokens, Collect, Rewrite, Print, NamesOf, Decimal, Fitting;
    forall i | 0 <= i < |ps| && ps[i].Param?
      ensures exists k | 0 <= k < |NamesOf(ps)| :: NamesOf(ps)[k] == ps[i].name && qs[i].digits == Decimal(k + 1)
    {
      assert Param(ps[i].name) in ps;
    }
  }

  // ---------------------------------------------------------------- the rewrite moves no boundary

  function Rewritten(s: string, names: seq<string>): string { Render(Rewrite(Tokens(s), names)) }

  lemma SplitHead(s: string)
    requires s != ""
    ensures s == Show(HeadToken(s)) + Rest(s) && |Rest(s)| < |s|
    ensures Tokens(s) == [HeadToken(s)] + Tokens(Rest(s)) && Tokens(s)[1..] == Tokens(Rest(s))
  {
  }

  lemma {:induction false} RenderTokens(s: string)
    ensures Render(Tokens(s)) == s
    decreases |s|
  {
    if s == "" {
    } else {
      SplitHead(s);
      RenderTokens(Rest(s));
    }
  }

  lemma RewrittenHead(s: string, names: seq<string>)
    requires s != ""
    ensures Rewritten(s, names) == Show(RewriteToken(HeadToken(s), names)) + Rewritten(Rest(s), names)
    ensures Rewritten(s, names) != "" && Rewritten(s, names)[0] == s[0]
  {
    assert Tokens(s)[1..] == Tokens(Rest(s));
    var rs := Rewrite(Tokens(s), names);
    assert rs[1..] == Rewrite(Tokens(Rest(s)), names);
  }

  /** Same emptiness, same first character. */
  predicate SameStart(x: string, y: string) { (x == "" <==> y == "") && (x != "" ==> x[0] == y[0]) }

  predicate HasClose(s: string) { BlockLen(s).Some? }

  lemma {:induction false} HasCloseAppend(w: string, x: string, y: string)
    requires SameStart(x, y) && (HasClose(x) <==> HasClose(y))
    ensures HasClose(w + x) <==> HasClose(w + y)
  {
    if w == "" {
      assert w + x == x && w + y == y;
    } else {
      HasCloseAppend(w[1..], x, y);
      assert (w + x)[1..] == w[1..] + x && (w + y)[1..] == w[1..] + y;
    }
  }

  lemma {:induction false} NoCloseInside(w: string, x: string)
    requires w != "" && forall i :: 0 <= i < |w| ==> w[i] != '*'
    ensures HasClose(w + x) <==> HasClose(x)
  {
    assert (w + x)[1..] == w[1..] + x;
    if |w| > 1 { NoCloseInside(w[1..], x); } else { assert w[1..] + x == x; }
  }

  predicate NameToken(t: Token) {
    t.Named? ==> forall i :: 0 <= i < |t.name| ==> IsNameChar(t.name[i])
  }

  lemma TokenClosers(t: Token, names: seq<string>, x: string, y: string)
    requires NameToken(t) && Show(t) != "" && SameStart(x, y)
    requires ('\'' in x <==> '\'' in y) && (HasClose(x) <==> HasClose(y))
    ensures '\'' in Show(t) + x <==> '\'' in Show(RewriteToken(t, names)) + y
    ensures HasClose(Show(t) + x) <==> HasClose(Show(RewriteToken(t, names)) + y)
    ensures '\'' in Show(t)[1..] + x <==> '\'' in Show(RewriteToken(t, names))[1..] + y
  {
    var t' := RewriteToken(t, names);
    if t.Named? {
      NoCloseInside(Show(t), x);
      NoCloseInside(Show(t'), y);
      assert '\'' !in Show(t) && '\'' !in Show(t');
    } else {
      HasCloseAppend(Show(t), x, y);
    }
  }

  /** The rewrite neither adds nor removes a quote or a block-comment close. */
  lemma {:induction false} RewrittenClosers(s: string, names: seq<string>)
    ensures '\'' in s <==> '\'' in Rewritten(s, names)
    ensures HasClose(s) <==> HasClose(Rewritten(s, names))
    ensures s != "" && Rewritten(s, names) != "" ==> ('\'' in s[1..] <==> '\'' in Rewritten(s, names)[1..])
    decreases |s|
  {
    if s == "" {
    } else {
      SplitHead(s);
      RewrittenHead(s, names);
      RewrittenClosers(Rest(s), names);
      var t, x, y := HeadToken(s), Rest(s), Rewritten(Rest(s), names);
      TokenClosers(t, names, x, y);
      DropFirst(Show(t), x);
      DropFirst(Show(RewriteToken(t, names)), y);
    }
  }

  lemma DropFirst(w: string, x: string)
    requires w != ""
    ensures (w + x)[1..] == w[1..] + x
  {
  }

  lemma {:induction false} LineLenKept(w: string, x: string, y: string)
    requires LineLen(w + x) == |w| && SameStart(x, y)
    ensures LineLen(w + y) == |w|
  {
    if w == "" {
      assert w + x == x && w + y == y;
    } else {
      assert (w + x)[1..] == w[1..] + x && (w + y)[1..] == w[1..] + y;
      LineLenKept(w[1..], x, y);
    }
  }

  lemma {:induction false} BlockLenKept(w: string, x: string, y: string)
    requires BlockLen(w + x) == Some(|w|)
    ensures BlockLen(w + y) == Some(|w|)
  {
    if !(w[0] == '*' && w[1] == '/') {
      assert (w + x)[1..] == w[1..] + x && (w + y)[1..] == w[1..] + y;
      BlockLenKept(w[1..], x, y);
    }
  }

  /** y closes the same literal as x when it starts alike and, after a quote, has as little chance to go on. */
  predicate SameQuotes(x: string, y: string) {
    SameStart(x, y) && (x != "" ==> ('\'' in x[1..] <==> '\'' in y[1..]))
  }

  lemma {:induction false} StringLenKept(w: string, x: string, y: string)
    requires StringLen(w + x) == Some(|w|) && SameQuotes(x, y)
    ensures StringLen(w + y) == Some(|w|)
  {
    if w[0] != '\'' {
      assert (w + x)[1..] == w[1..] + x && (w + y)[1..] == w[1..] + y;
      StringLenKept(w[1..], x, y);
    } else if |w| > 1 {
      assert (w + x)[2..] == w[2..] + x && (w + y)[2..] == w[2..] + y;
      StringLenKept(w[2..], x, y);
    } else if x != "" {
      assert (w + x)[2..] == x[1..] && (w + y)[2..] == y[1..];
      Unclosed(x[1..]);
      Unclosed(y[1..]);
    }
  }

  lemma RewrittenQuotes(s: string, names: seq<string>)
    ensures SameQuotes(s, Rewritten(s, names))
  {
    RewrittenClosers(s, names);
  }

  /** A span at the head stays, whatever text with the same quotes comes behind it. */
  lemma SpanKept(w: string, x: string, y: string)
    requires w != "" && SpanLen(w + x) == |w| && SameQuotes(x, y)
    ensures SpanLen(w + y) == |w|
  {
    DropFirst(w, x);
    DropFirst(w, y);
    assert (w + x)[0] == w[0] && (w + x)[1] == w[1];
    if w[0] == '\'' {
      StringLenKept(w[1..], x, y);
    } else {
      assert (w + x)[2..] == w[2..] + x && (w + y)[2..] == w[2..] + y;
      if w[0] == '-' { LineLenKept(w[2..], x, y); } else { BlockLenKept(w[2..], x, y); }
    }
  }

  /** And no span appears at the head of a plain character. */
  lemma {:induction false} NoSpanAppears(s: string, names: seq<string>)
    requires s != "" && SpanLen(s) == 0 && HeadToken(s).Plain?
    ensures SpanLen([s[0]] + Rewritten(s[1..], names)) == 0
  {
    var x, y := s[1..], Rewritten(s[1..], names);
    var z := [s[0]] + y;
    RewrittenClosers(x, names);
    assert z[1..] == y;
    Unclosed(x);
    Unclosed(y);
    if s[0] == '/' && x != "" && x[0] == '*' {
      assert SpanLen(x) == 0 && HeadToken(x) == Plain('*');
      RewrittenHead(x, names);
      RewrittenClosers(x[1..], names);
      assert Rest(x) == x[1..] == s[2..];
      assert z[2..] == Rewritten(x[1..], names);
    }
  }

  lemma {:induction false} DigitLenAll(w: string, y: string)
    requires forall i :: 0 <= i < |w| ==> IsDigit(w[i])
    requires y == "" || !IsDigit(y[0])
    ensures DigitLen(w + y) == |w|
  {
    if w == "" {
      assert w + y == y;
    } else {
      assert (w + y)[1..] == w[1..] + y;
      DigitLenAll(w[1..], y);
    }
  }

  /** The compiled text splits into exactly the rewritten tokens: comments, literals and plain text are untouched. */
  lemma {:induction false} Retokenise(s: string, names: seq<string>)
    ensures Tokens(Rewritten(s, names)) == Rewrite(Tokens(s), names)
    decreases |s|
  {
    if s == "" {
    } else {
      var t, r := HeadToken(s), Rest(s);
      var z := Rewritten(s, names);
      RewrittenHead(s, names);
      Retokenise(r, names);
      HeadKept(s, names);
      assert Rest(z) == Rewritten(r, names);
      assert Tokens(s)[1..] == Tokens(r);
    }
  }

  lemma HeadKept(s: string, names: seq<string>)
    requires s != ""
    ensures Rewritten(s, names) != "" && HeadToken(Rewritten(s, names)) == RewriteToken(HeadToken(s), names)
  {
    SplitHead(s);
    RewrittenHead(s, names);
    RewrittenQuotes(Rest(s), names);
    match HeadToken(s)
    case Opaque(w) => OpaqueKept(w, Rest(s), Rewritten(Rest(s), names));
    case Plain(c) => PlainKept(s, names);
    case _ =>
      NextIsNoDigit(s);
      NumberedHeadKept(RewriteToken(HeadToken(s), names).digits, Rewritten(Rest(s), names));
  }

  lemma OpaqueKept(w: string, x: string, y: string)
    requires w + x != "" && HeadToken(w + x) == Opaque(w) && SameQuotes(x, y)
    ensures w + y != "" && HeadToken(w + y) == Opaque(w)
  {
    assert SpanLen(w + x) == |w|;
    SpanKept(w, x, y);
    assert (w + y)[..|w|] == w;
  }

  lemma PlainKept(s: string, names: seq<string>)
    requires s != "" && HeadToken(s).Plain?
    ensures [s[0]] + Rewritten(s[1..], names) != "" && HeadToken([s[0]] + Rewritten(s[1..], names)) == HeadToken(s)
    ensures Rest(s) == s[1..]
  {
    NoSpanAppears(s, names);
  }

  lemma NumberedHeadKept(d: string, y: string)
    requires d != "" && (forall i :: 0 <= i < |d| ==> IsDigit(d[i])) && (y == "" || !IsDigit(y[0]))
    ensures HeadToken("$" + d + y) == Numbered(d)
  {
    var z := "$" + d + y;
    assert z[1..] == d + y;
    assert z[1] == d[0];
    DigitLenAll(d, y);
  }

  lemma NextIsNoDigit(s: string)
    requires s != "" && (HeadToken(s).Named? || HeadToken(s).Numbered?)
    ensures Rest(s) == "" || !IsDigit(Rest(s)[0])
  {
    var n := if HeadToken(s).Named? then NameLen(s[1..]) else DigitLen(s[1..]);
    NameLenIsMaximal(s[1..]);
    DigitLenIsMaximal(s[1..]);
    if Rest(s) != "" { assert Rest(s)[0] == s[1..][n]; }
  }

  // ---------------------------------------------------------------- the scan of the masked copy

  lemma UnmaskedHead(s: string)
    requires s != "" && SpanLen(s) == 0
    ensures Mask(s) == [s[0]] + Mask(s[1..]) && Mask(s)[1..] == Mask(s[1..])
  {
  }

  lemma MaskedHead(s: string)
    requires s != "" && SpanLen(s) > 0
    ensures Mask(s) == BlankText(s[..SpanLen(s)]) + Mask(s[SpanLen(s)..])
  {
  }

  lemma {:induction false} MaskedNameLen(s: string)
    ensures NameLen(Mask(s)) == NameLen(s)
  {
    if s != "" && IsNameChar(s[0]) {
      UnmaskedHead(s);
      MaskedNameLen(s[1..]);
    }
  }

  lemma {:induction false} MaskedNameChars(s: string, n: nat)
    requires n <= |s| && forall i :: 0 <= i < n ==> IsNameChar(s[i])
    ensures Mask(s) == s[..n] + Mask(s[n..])
  {
    if n == 0 {
      assert s[0..] == s;
    } else {
      assert IsNameChar(s[0]);
      UnmaskedHead(s);
      MaskedNameChars(s[1..], n - 1);
      Slices(s, n, Mask(s[n..]));
    }
  }

  lemma Slices(s: string, n: nat, m: string)
    requires 0 < n <= |s|
    ensures s[1..][n - 1..] == s[n..] && s[..n] == [s[0]] + s[1..][..n - 1]
    ensures s[..n] + m == [s[0]] + (s[1..][..n - 1] + m)
  {
  }

  lemma {:induction false} NoMatchInBlanks(w: string, m: string)
    requires forall i :: 0 <= i < |w| ==> w[i] == ' ' || w[i] == '\n' || IsDigit(w[i])
    ensures NextMatch(w + m) == Shift(NextMatch(m), |w|)
  {
    if w == "" {
      assert w + m == m;
    } else {
      DropFirst(w, m);
      NoMatchInBlanks(w[1..], m);
    }
  }

  function Shift(r: Option<Match>, n: nat): Option<Match> {
    match r case None => None case Some(x) => Some(Match(x.index + n, x.end + n))
  }

  lemma {:induction false} MaskPlaceholder(s: string, n: nat)
    requires 0 < n <= |s| && s[0] == '$' && forall i :: 1 <= i < n ==> IsNameChar(s[i])
    ensures Mask(s) == s[..n] + Mask(s[n..])
  {
    assert SpanLen(s) == 0;
    hide *;
    var r := s[1..];
    forall i | 0 <= i < n - 1 ensures IsNameChar(r[i]) { assert r[i] == s[i + 1]; }
    UnmaskedHead(s);
    MaskedNameChars(r, n - 1);
    Slices(s, n, Mask(s[n..]));
  }

  function TokenMask(t: Token): (m: string)
    ensures |m| == |Show(t)|
  {
    if t.Opaque? then BlankText(t.text) else Show(t)
  }

  /** The mask of a token followed by the mask of the rest: blanks for a span, the text itself otherwise. */
  lemma MaskToken(s: string)
    requires s != ""
    ensures Mask(s) == TokenMask(HeadToken(s)) + Mask(Rest(s))
  {
    var t := HeadToken(s);
    if t.Opaque? {
      MaskedHead(s);
    } else if t.Plain? {
      UnmaskedHead(s);
    } else {
      MaskPlaceholder(s, |Show(t)|);
    }
  }

  lemma ScanNamed(name: string, m: string)
    requires name != "" && IsNameStart(name[0]) && NameLen(name + m) == |name|
    ensures NextMatch("$" + name + m) == Some(Match(0, 1 + |name|))
  {
    var z := "$" + name + m;
    assert z[1..] == name + m;
    assert z[1] == name[0];
  }

  lemma {:induction false} ScanPlain(c: char, m: string)
    requires c == '$' && m != "" ==> !IsNameStart(m[0])
    ensures NextMatch([c] + m) == Shift(NextMatch(m), 1)
  {
    var z := [c] + m;
    assert z[1..] == m && !NamedHead(z);
    hide NamedHead, NameLen;
  }

  lemma ScanNumbered(d: string, m: string)
    requires d != "" && forall i :: 0 <= i < |d| ==> IsDigit(d[i])
    ensures NextMatch("$" + d + m) == Shift(NextMatch(m), 1 + |d|)
  {
    assert "$" + d + m == "$" + (d + m);
    ScanPlain('$', d + m);
    NoMatchInBlanks(d, m);
  }

  /** At a token that is no placeholder, the scan goes on behind it. */
  lemma ScanToken(s: string)
    requires s != ""
    ensures HeadToken(s).Named? ==> NextMatch(Mask(s)) == Some(Match(0, |Show(HeadToken(s))|))
    ensures !HeadToken(s).Named? ==> NextMatch(Mask(s)) == Shift(NextMatch(Mask(Rest(s))), |Show(HeadToken(s))|)
  {
    hide Mask, NextMatch;
    MaskToken(s);
    var t, m := HeadToken(s), Mask(Rest(s));
    match t
    case Opaque(w) => NoMatchInBlanks(BlankText(w), m);
    case Named(name) => NamedInMask(s); ScanNamed(name, m);
    case Numbered(d) => ScanNumbered(d, m);
    case Plain(c) =>
      if Rest(s) != "" { MaskFirst(Rest(s)); }
      ScanPlain(c, m);
  }

  lemma NamedInMask(s: string)
    requires s != "" && HeadToken(s).Named?
    ensures var name := HeadToken(s).name;
            name != "" && IsNameStart(name[0]) && NameLen(name + Mask(Rest(s))) == |name|
  {
    var n := NameLen(s[1..]);
    MaskedNameLen(s[1..]);
    NameLenIsMaximal(s[1..]);
    MaskedNameChars(s[1..], n);
    assert s[1..][n..] == Rest(s) && s[1..][..n] == HeadToken(s).name;
  }

  lemma MaskFirst(s: string)
    requires s != ""
    ensures Mask(s)[0] in {s[0], ' ', '\n'}
  {
    if SpanLen(s) == 0 { UnmaskedHead(s); }
    if SpanLen(s) > 0 { MaskedHead(s); }
  }

  /** No placeholder is left. */
  lemma {:induction false} NoPlaceholder(s: string, names: seq<string>, all: seq<string>)
    requires NextMatch(Mask(s)) == None
    ensures Collect(Tokens(s), names) == names && Rewritten(s, all) == s
    decreases |s|
  {
    if s == "" {
    } else {
      SplitHead(s);
      ScanToken(s);
      RewrittenHead(s, all);
      NoPlaceholder(Rest(s), names, all);
    }
  }

  /** The next match of s is the name; what precedes it is copied, what follows it is still to compile. */
  predicate Placed(s: string, before: string, name: string, after: string) {
    && s == before + "$" + name + after
    && NextMatch(Mask(s)) == Some(Match(|before|, |before| + 1 + |name|))
    && Mask(s)[|before| + 1 + |name|..] == Mask(after)
  }

  predicate PlacedMeaning(s: string, before: string, name: string, after: string, names: seq<string>,
                          all: seq<string>) {
    && Collect(Tokens(s), names) == Collect(Tokens(after), AddName(names, name))
    && Rewritten(s, all) == before + "$" + Decimal(IndexOf(all, name) + 1) + Rewritten(after, all)
  }

  lemma Assoc(a: string, b: string, c: string)
    ensures a + (b + c) == a + b + c
  {
  }

  lemma Assoc3(a: string, b: string, c: string, d: string)
    ensures a + (b + c + d) == a + b + c + d
  {
    Assoc(a, b + c, d);
    Assoc(a, b, c);
  }

  lemma PlacedBehind(s: string, before: string, name: string, after: string)
    requires s != "" && !HeadToken(s).Named? && Placed(Rest(s), before, name, after)
    ensures Placed(s, Show(HeadToken(s)) + before, name, after)
  {
    hide HeadToken, Mask, NextMatch, TokenMask, Show;
    var w, n := Show(HeadToken(s)), |before| + 1 + |name|;
    assert s == w + before + "$" + name + after by {
      SplitHead(s);
      Assoc3(w, before + "$", name, after);
      Assoc(w, before, "$");
    }
    assert NextMatch(Mask(s)) == Shift(NextMatch(Mask(Rest(s))), |w|) by { ScanToken(s); }
    assert Mask(s)[|w| + n..] == Mask(Rest(s))[n..] by {
      MaskToken(s);
    }
  }

  lemma PlacedBehindMeaning(s: string, before: string, name: string, after: string, names: seq<string>,
                            all: seq<string>)
    requires s != "" && !HeadToken(s).Named? && PlacedMeaning(Rest(s), before, name, after, names, all)
    ensures PlacedMeaning(s, Show(HeadToken(s)) + before, name, after, names, all)
  {
    hide HeadToken, Tokens, Rewritten;
    SplitHead(s);
    RewrittenHead(s, all);
    var w := Show(HeadToken(s));
    Assoc3(w, before + "$", Decimal(IndexOf(all, name) + 1), Rewritten(after, all));
    Assoc(w, before, "$");
  }

  lemma PlacedHere(s: string)
    requires s != "" && HeadToken(s).Named?
    ensures Placed(s, "", HeadToken(s).name, Rest(s))
  {
    hide HeadToken, Mask, NextMatch, TokenMask, Tokens;
    assert s == "" + "$" + HeadToken(s).name + Rest(s) by { SplitHead(s); }
    assert NextMatch(Mask(s)) == Some(Match(0, |Show(HeadToken(s))|)) by { ScanToken(s); }
    assert Mask(s)[|Show(HeadToken(s))|..] == Mask(Rest(s)) by {
      MaskToken(s);
    }
  }

  lemma PlacedHereMeaning(s: string, names: seq<string>, all: seq<string>)
    requires s != "" && HeadToken(s).Named?
    ensures PlacedMeaning(s, "", HeadToken(s).name, Rest(s), names, all)
  {
    hide HeadToken, Tokens, Rewritten, Decimal, IndexOf;
    SplitHead(s);
    RewrittenHead(s, all);
    assert "" + "$" == "$";
  }

  lemma {:induction false} NextPlaceholder(s: string, names: seq<string>, all: seq<string>)
      returns (before: string, name: string, after: string)
    requires NextMatch(Mask(s)).Some?
    ensures Placed(s, before, name, after) && PlacedMeaning(s, before, name, after, names, all)
    decreases |s|
  {
    if HeadToken(s).Named? {
      PlacedHere(s);
      PlacedHereMeaning(s, names, all);
      before, name, after := "", HeadToken(s).name, Rest(s);
    } else {
      ScanToken(s);
      before, name, after := NextPlaceholder(Rest(s), names, all);
      PlacedBehind(s, before, name, after);
      PlacedBehindMeaning(s, before, name, after, names, all);
      before := Show(HeadToken(s)) + before;
    }
  }

  // ---------------------------------------------------------------- the compiler

  /** The names so far stay the first names of the final list, so their positions are final. */
  lemma {:induction false} CollectExtends(ts: seq<Token>, names: seq<string>)
    ensures names <= Collect(ts, names)
  {
    if ts == [] {
    } else {
      CollectExtends(ts[1..], if ts[0].Named? then AddName(names, ts[0].name) else names);
    }
  }

  lemma {:induction false} IndexInPrefix(names: seq<string>, all: seq<string>, n: string)
    requires names <= all && n in names
    ensures IndexOf(all, n) == IndexOf(names, n)
  {
    if names[0] != n {
      assert all[1..][..|names| - 1] == names[1..];
      IndexInPrefix(names[1..], all[1..], n);
    }
  }

  /** positions is the index of paramNames, counted from 1. */
  ghost predicate Indexed(names: seq<string>, positions: map<string, nat>) {
    && (forall n :: n in positions <==> n in names)
    && forall n :: n in positions ==> positions[n] == IndexOf(names, n) + 1
  }

  lemma IndexedPush(names: seq<string>, positions: map<string, nat>, n: string)
    requires Indexed(names, positions) && n !in names
    ensures Indexed(names + [n], positions[n := |names| + 1])
  {
    forall m | m in names + [n] ensures IndexOf(names + [n], m) == if m == n then |names| else IndexOf(names, m) {
      if m != n { IndexInPrefix(names, names + [n], m); }
    }
  }

  /** The compiler at a token boundary: done is the text so far, names the names so far. */
  ghost predicate Compiling(raw: string, cursor: nat, done: string, names: seq<string>) {
    && cursor <= |raw|
    && Mask(raw)[cursor..] == Mask(raw[cursor..])
    && Collect(Tokens(raw[cursor..]), names) == ParamNames(raw)
    && done + Rewritten(raw[cursor..], ParamNames(raw)) == PositionalText(raw)
  }

  lemma CompileStart(raw: string)
    ensures Compiling(raw, 0, "", []) && raw[0..] == raw && Mask(raw)[0..] == Mask(raw)
  {
    assert raw[0..] == raw && Mask(raw)[0..] == Mask(raw);
    assert "" + Rewritten(raw, ParamNames(raw)) == PositionalText(raw);
    hide Mask, Rewritten;
  }

  lemma DropTwice(s: string, i: nat, j: nat)
    requires i <= |s| && j <= |s| - i
    ensures s[i..][j..] == s[i + j..]
  {
  }

  /** Behind a placed name stands what is still to compile. */
  lemma {:induction false} BehindPlaced(s: string, before: string, name: string, after: string)
    requires s == before + "$" + name + after
    ensures var k := |before| + 1 + |name|;
            k <= |s| && s[k..] == after && s[..|before|] == before && s[|before| + 1..k] == name
  {
  }

  lemma {:induction false} CompilePlaced(raw: string, cursor: nat, done: string, names: seq<string>,
                                         before: string, name: string, after: string)
    requires Compiling(raw, cursor, done, names) && Placed(raw[cursor..], before, name, after)
    requires PlacedMeaning(raw[cursor..], before, name, after, names, ParamNames(raw))
    ensures Compiling(raw, cursor + (|before| + 1 + |name|),
                      done + (before + "$" + Decimal(IndexOf(ParamNames(raw), name) + 1)), AddName(names, name))
  {
    hide Mask, NextMatch, Tokens, Collect, Rewritten, PositionalText, ParamNames, IndexOf, Decimal, AddName;
    var k := |before| + 1 + |name|;
    BehindPlaced(raw[cursor..], before, name, after);
    DropTwice(raw, cursor, k);
    DropTwice(Mask(raw), cursor, k);
    var all := ParamNames(raw);
    Assoc(done, before + "$" + Decimal(IndexOf(all, name) + 1), Rewritten(after, all));
  }

  lemma {:induction false} CompileStep(raw: string, cursor: nat, done: string, names: seq<string>, m: Match)
    requires Compiling(raw, cursor, done, names) && NextMatch(Mask(raw[cursor..])) == Some(m)
    ensures cursor + m.end <= |raw| && m.index < m.end
    ensures var name := raw[cursor..][m.index + 1..m.end];
            var names' := AddName(names, name);
            Compiling(raw, cursor + m.end,
                      done + (raw[cursor..][..m.index] + "$" + Decimal(IndexOf(names', name) + 1)), names')
  {
    hide Mask, NextMatch, Tokens, Collect, Rewritten, PositionalText, IndexOf, Decimal;
    var rest, all := raw[cursor..], ParamNames(raw);
    var before, name, after := NextPlaceholder(rest, names, all);
    var names' := AddName(names, name);
    CollectExtends(Tokens(after), names');
    assert names' <= all && name in names';
    IndexInPrefix(names', all, name);
    CompilePlaced(raw, cursor, done, names, before, name, after);
    BehindPlaced(rest, before, name, after);
    hide ParamNames, AddName, Compiling, PlacedMeaning;
  }

  lemma MaskAtBoundary(raw: string, cursor: nat, done: string, names: seq<string>)
    requires Compiling(raw, cursor, done, names)
    ensures cursor <= |raw| && Mask(raw)[cursor..] == Mask(raw[cursor..])
  {
  }

  lemma CompileEnd(raw: string, cursor: nat, done: string, names: seq<string>)
    requires Compiling(raw, cursor, done, names) && NextMatch(Mask(raw[cursor..])) == None
    ensures done + raw[cursor..] == PositionalText(raw) && names == ParamNames(raw)
  {
    hide Mask, NextMatch, Tokens, Collect, Rewritten, PositionalText, ParamNames;
    NoPlaceholder(raw[cursor..], names, ParamNames(raw));
  }

  method ConvertNamedParams(raw: string) returns (text: string, paramNames: seq<string>)
    ensures text == PositionalText(raw) && paramNames == ParamNames(raw)
  {
    hide Mask, NextMatch, Tokens, Collect, Rewritten, Decimal, IndexOf, PositionalText, ParamNames, Compiling;
    paramNames := [];
    var positions: map<string, nat> := map[];
    var masked := Mask(raw);
    var cursor := 0;
    text := "";
    CompileStart(raw);
    var next := NextMatch(masked);
    while next.Some?
      invariant cursor <= |raw| && masked[cursor..] == Mask(raw[cursor..])
      invariant next == NextMatch(masked[cursor..])
      invariant Compiling(raw, cursor, text, paramNames) && Indexed(paramNames, positions)
      decreases |raw| - cursor
    {
      var Match(index, end) := next.value;
      CompileStep(raw, cursor, text, paramNames, next.value);
      var name := raw[cursor..][index + 1..end];
      if name !in positions {
        IndexedPush(paramNames, positions, name);
        paramNames := paramNames + [name];
        positions := positions[name := |paramNames|];
      }
      text := text + (raw[cursor..][..index] + "$" + Decimal(positions[name]));
      cursor := cursor + end;
      MaskAtBoundary(raw, cursor, text, paramNames);
      next := NextMatch(masked[cursor..]);
    }
    CompileEnd(raw, cursor, text, paramNames);
    text := text + raw[cursor..];
  }

  // ---------------------------------------------------------------- paramNames

  ghost predicate Distinct(names: seq<string>) { forall i, j :: 0 <= i < j < |names| ==> names[i] != names[j] }

  /** Where ts first uses n. */
  function FirstUse(ts: seq<Token>, n: string): nat {
    if ts == [] || ts[0] == Named(n) then 0 else 1 + FirstUse(ts[1..], n)
  }

  lemma {:induction false} CollectNames(ts: seq<Token>, names: seq<string>)
    requires Distinct(names)
    ensures var all := Collect(ts, names);
            && names <= all && Distinct(all)
            && (forall n :: n in all <==> n in names || Named(n) in ts)
            && forall i, j :: |names| <= i < j < |all| ==> FirstUse(ts, all[i]) < FirstUse(ts, all[j])
  {
    if ts == [] {
    } else {
      var names' := if ts[0].Named? then AddName(names, ts[0].name) else names;
      CollectNames(ts[1..], names');
      assert ts == [ts[0]] + ts[1..];
    }
  }

  predicate UsesPosition(ts: seq<Token>, k: nat) { Numbered(Decimal(k)) in ts }

  lemma UseOfName(ts: seq<Token>, names: seq<string>, n: string)
    requires Named(n) in ts && n in names
    ensures UsesPosition(Rewrite(ts, names), IndexOf(names, n) + 1)
  {
    hide Decimal;
    var at :| 0 <= at < |ts| && ts[at] == Named(n);
    assert Rewrite(ts, names)[at] == RewriteToken(ts[at], names);
  }

  /** No name twice, exactly the names used, in order of first use. */
  lemma ParamNamesExact(raw: string)
    ensures var names := ParamNames(raw);
            && Distinct(names)
            && (forall n :: n in names <==> Named(n) in Tokens(raw))
            && (forall i, j :: 0 <= i < j < |names| ==>
                 FirstUse(Tokens(raw), names[i]) < FirstUse(Tokens(raw), names[j]))
  {
    CollectNames(Tokens(raw), []);
  }

  /** Every position up to the number of names is used by the compiled text. */
  lemma PositionsUsed(raw: string)
    ensures forall k :: 1 <= k <= |ParamNames(raw)| ==> UsesPosition(Tokens(PositionalText(raw)), k)
  {
    var ts, names := Tokens(raw), ParamNames(raw);
    ParamNamesExact(raw);
    Retokenise(raw, names);
    hide Tokens, ParamNames, UsesPosition, FirstUse;
    forall k | 1 <= k <= |names| ensures UsesPosition(Rewrite(ts, names), k) {
      assert names[k - 1] in names;
      UseOfName(ts, names, names[k - 1]);
      assert IndexOf(names, names[k - 1]) == k - 1;
    }
  }

  // ---------------------------------------------------------------- binding and filling

  datatype Piece<V> = Char(c: char) | Value(v: V)

  /** The positional arguments, or the first parameter name that has no value. params maps every name the object answers
      to, its own and the inherited ones: `in` and the lookup see both alike. */
  function BindQueryParams<V>(paramNames: seq<string>, params: map<string, V>): (r: Result<seq<V>, string>)
    ensures r.Success? <==> forall n :: n in paramNames ==> n in params
    ensures r.Success? ==>
              |r.value| == |paramNames| && forall i :: 0 <= i < |paramNames| ==> r.value[i] == params[paramNames[i]]
    ensures r.Failure? ==> exists i :: 0 <= i < |paramNames| && paramNames[i] == r.error && r.error !in params
                                       && forall j :: 0 <= j < i ==> paramNames[j] in params
  {
    if paramNames == [] then Success([])
    else if paramNames[0] !in params then Failure(paramNames[0])
    else match BindQueryParams(paramNames[1..], params)
      case Failure(n) => Failure(n)
      case Success(vs) => Success([params[paramNames[0]]] + vs)
  }

  function Chars<V>(s: string): seq<Piece<V>> { seq(|s|, i requires 0 <= i < |s| => Char(s[i])) }

  ghost predicate AllBound<V>(ts: seq<Token>, params: map<string, V>) {
    forall n :: Named(n) in ts ==> n in params
  }

  /** The statement meant by a text with named placeholders. */
  ghost function FillNamed<V>(ts: seq<Token>, params: map<string, V>): seq<Piece<V>>
    requires AllBound(ts, params)
  {
    if ts == [] then []
    else
      assert ts == [ts[0]] + ts[1..];
      (match ts[0] case Named(n) => [Value(params[n])] case t => Chars(Show(t))) + FillNamed(ts[1..], params)
  }

  /** The statement meant by a text with positional placeholders; None when a position has no argument. */
  function FillNumbered<V>(ts: seq<Token>, args: seq<V>): Option<seq<Piece<V>>> {
    if ts == [] then Some([])
    else match (ts[0], FillNumbered(ts[1..], args))
      case (_, None) => None
      case (Numbered(d), Some(rest)) =>
        if 1 <= DecimalValue(d) <= |args| then Some([Value(args[DecimalValue(d) - 1])] + rest) else None
      case (t, Some(rest)) => Some(Chars(Show(t)) + rest)
  }

  function Values<V>(ps: seq<Piece<V>>): nat {
    if ps == [] then 0 else Values(ps[1..]) + if ps[0].Value? then 1 else 0
  }

  lemma {:induction false} CharsHaveNoValue<V>(s: string, ps: seq<Piece<V>>)
    ensures Values(Chars(s) + ps) == Values(ps)
  {
    if s == "" {
      assert Chars(s) + ps == ps;
    } else {
      assert (Chars(s) + ps)[1..] == Chars(s[1..]) + ps;
      CharsHaveNoValue(s[1..], ps);
    }
  }

  function Count(ts: seq<Token>, numberedToo: bool): nat {
    if ts == [] then 0
    else Count(ts[1..], numberedToo) + if ts[0].Named? || (numberedToo && ts[0].Numbered?) then 1 else 0
  }

  ghost predicate NoNumbered(ts: seq<Token>) { forall t :: t in ts ==> !t.Numbered? }

  lemma {:induction false} CountNumbered(ts: seq<Token>)
    ensures Count(ts, false) <= Count(ts, true) && (Count(ts, false) == Count(ts, true) <==> NoNumbered(ts))
  {
    if ts == [] {
    } else {
      CountNumbered(ts[1..]);
      assert ts == [ts[0]] + ts[1..];
    }
  }

  lemma {:induction false} NamedValues<V>(ts: seq<Token>, params: map<string, V>)
    requires AllBound(ts, params)
    ensures Values(FillNamed(ts, params)) == Count(ts, false)
  {
    if ts == [] {
    } else {
      assert ts == [ts[0]] + ts[1..];
      var rest := FillNamed(ts[1..], params);
      NamedValues(ts[1..], params);
      if ts[0].Named? {
        assert FillNamed(ts, params)[1..] == rest;
      } else {
        CharsHaveNoValue(Show(ts[0]), rest);
      }
    }
  }

  /** args lists the values of names in their order. */
  ghost predicate Bound<V>(names: seq<string>, params: map<string, V>, args: seq<V>) {
    |args| == |names| && forall i :: 0 <= i < |names| ==> names[i] in params && args[i] == params[names[i]]
  }

  lemma {:induction false} NumberedValues<V>(ts: seq<Token>, names: seq<string>, args: seq<V>)
    ensures var r := FillNumbered(Rewrite(ts, names), args);
            r.Some? ==> Values(r.value) == Count(ts, true)
  {
    if ts == [] {
    } else {
      var rs := Rewrite(ts, names);
      NumberedValues(ts[1..], names, args);
      assert rs[1..] == Rewrite(ts[1..], names);
      if FillNumbered(rs, args).Some? {
        var rest := FillNumbered(rs[1..], args).value;
        if rs[0].Numbered? {
          assert FillNumbered(rs, args).value[1..] == rest;
        } else {
          CharsHaveNoValue(Show(rs[0]), rest);
        }
      }
    }
  }

  lemma FillNumberedCons<V>(t: Token, ts: seq<Token>, args: seq<V>, rest: seq<Piece<V>>)
    requires FillNumbered(ts, args) == Some(rest)
    ensures FillNumbered([t] + ts, args)
            == if !t.Numbered? then Some(Chars(Show(t)) + rest)
               else if 1 <= DecimalValue(t.digits) <= |args| then Some([Value(args[DecimalValue(t.digits) - 1])] + rest)
               else None
  {
    assert ([t] + ts)[1..] == ts;
    hide Show, Chars, DecimalValue;
  }

  lemma FillNamedCons<V>(t: Token, ts: seq<Token>, params: map<string, V>)
    requires AllBound([t] + ts, params)
    ensures AllBound(ts, params) && (t.Named? ==> t.name in params)
    ensures FillNamed([t] + ts, params)
            == (if t.Named? then [Value(params[t.name])] else Chars(Show(t))) + FillNamed(ts, params)
  {
    assert ([t] + ts)[1..] == ts && t in [t] + ts;
    assert forall u :: u in ts ==> u in [t] + ts;
    hide Show, Chars;
  }

  /** The position a name is rewritten to holds its value. */
  lemma HeadFills<V>(t: Token, names: seq<string>, params: map<string, V>, args: seq<V>)
    requires Bound(names, params, args) && !t.Numbered? && (t.Named? ==> t.name in names && t.name in params)
    ensures var u := RewriteToken(t, names);
            if t.Named? then
              u.Numbered? && 1 <= DecimalValue(u.digits) <= |args| && args[DecimalValue(u.digits) - 1] == params[t.name]
            else u == t
  {
    if t.Named? { DecimalValueOf(IndexOf(names, t.name) + 1); }
    hide Decimal, DecimalValue;
  }

  lemma {:induction false} FillsAgree<V>(ts: seq<Token>, names: seq<string>, params: map<string, V>, args: seq<V>)
    requires AllBound(ts, params) && Bound(names, params, args) && NoNumbered(ts)
    requires forall n :: Named(n) in ts ==> n in names
    ensures FillNumbered(Rewrite(ts, names), args) == Some(FillNamed(ts, params))
  {
    if ts == [] {
    } else {
      assert ts == [ts[0]] + ts[1..];
      hide FillNumbered, FillNamed, Rewrite, Bound;
      BoundTail(ts[0], ts[1..], params);
      FillsAgree(ts[1..], names, params, args);
      FillsMore(ts[0], ts[1..], names, params, args);
    }
  }

  lemma BoundTail<V>(t: Token, ts: seq<Token>, params: map<string, V>)
    requires AllBound([t] + ts, params)
    ensures AllBound(ts, params)
  {
    assert forall u :: u in ts ==> u in [t] + ts;
  }

  lemma {:induction false} FillsMore<V>(t: Token, ts: seq<Token>, names: seq<string>, params: map<string, V>,
                                        args: seq<V>)
    requires AllBound([t] + ts, params) && AllBound(ts, params) && Bound(names, params, args) && !t.Numbered?
    requires t.Named? ==> t.name in names
    requires FillNumbered(Rewrite(ts, names), args) == Some(FillNamed(ts, params))
    ensures FillNumbered(Rewrite([t] + ts, names), args) == Some(FillNamed([t] + ts, params))
  {
    FillNamedCons(t, ts, params);
    assert ([t] + ts)[1..] == ts;
    assert Rewrite([t] + ts, names) == [RewriteToken(t, names)] + Rewrite(ts, names);
    HeadFills(t, names, params, args);
    hide FillNumbered, FillNamed, Rewrite, RewriteToken, Show, DecimalValue, Chars, Bound;
    FillNumberedCons(RewriteToken(t, names), Rewrite(ts, names), args, FillNamed(ts, params));
  }

  lemma {:induction false} FillingsAgree<V>(ts: seq<Token>, names: seq<string>, params: map<string, V>, args: seq<V>)
    requires names == Collect(ts, []) && Bound(names, params, args)
    ensures AllBound(ts, params)
    ensures FillNumbered(Rewrite(ts, names), args) == Some(FillNamed(ts, params)) <==> NoNumbered(ts)
  {
    CollectNames(ts, []);
    hide Collect, Rewrite, FillNumbered, FillNamed;
    assert AllBound(ts, params);
    NumberedValues(ts, names, args);
    NamedValues(ts, params);
    CountNumbered(ts);
    if NoNumbered(ts) { FillsAgree(ts, names, params, args); }
  }

  /** The compiled text with the bound array means what the source text means with the named values,
      exactly when the source has no positional placeholder of its own outside comments and literals. */
  lemma {:induction false} MeaningPreserved<V>(raw: string, params: map<string, V>)
    requires BindQueryParams(ParamNames(raw), params).Success?
    ensures AllBound(Tokens(raw), params)
    ensures FillNumbered(Tokens(PositionalText(raw)), BindQueryParams(ParamNames(raw), params).value)
            == Some(FillNamed(Tokens(raw), params))
            <==> NoNumbered(Tokens(raw))
  {
    hide Tokens, Collect, Rewrite, FillNumbered, FillNamed, Render;
    FillingsAgree(Tokens(raw), ParamNames(raw), params, BindQueryParams(ParamNames(raw), params).value);
    Retokenise(raw, ParamNames(raw));
  }

  // ---------------------------------------------------------------- undoing the compiler

  function UndoToken(t: Token, names: seq<string>): Token {
    if t.Numbered? && 1 <= DecimalValue(t.digits) <= |names| then Named(names[DecimalValue(t.digits) - 1]) else t
  }

  /** Every position within names, by its name. */
  function Undo(ts: seq<Token>, names: seq<string>): string {
    if ts == [] then "" else Show(UndoToken(ts[0], names)) + Undo(ts[1..], names)
  }

  ghost predicate NoneInRange(ts: seq<Token>, count: nat) {
    forall t :: t in ts && t.Numbered? ==> !(1 <= DecimalValue(t.digits) <= count)
  }

  /** Placeholders as the scanner produces them start with a letter or a digit. */
  predicate ScannedToken(t: Token) {
    match t
    case Named(n) => n != "" && IsNameStart(n[0])
    case Numbered(d) => d != "" && IsDigit(d[0])
    case _ => true
  }

  lemma {:induction false} TokensAreScanned(s: string)
    ensures forall t :: t in Tokens(s) ==> ScannedToken(t)
    decreases |s|
  {
    if s == "" {
    } else {
      TokensAreScanned(Rest(s));
      NameLenIsMaximal(s[1..]);
      DigitLenIsMaximal(s[1..]);
      assert ScannedToken(HeadToken(s));
    }
  }

  /** One token: undone or not, the rendered texts differ at its second character or go on alike. */
  lemma UndoHead(t: Token, names: seq<string>, x: string, y: string)
    requires ScannedToken(t) && (t.Named? ==> t.name in names)
    requires forall i :: 0 <= i < |names| ==> names[i] != "" && IsNameStart(names[i][0])
    ensures Show(UndoToken(RewriteToken(t, names), names)) + x == Show(t) + y
            <==> x == y && (t.Numbered? ==> !(1 <= DecimalValue(t.digits) <= |names|))
  {
    hide DecimalValue, Decimal;
    var undone := UndoToken(RewriteToken(t, names), names);
    if t.Named? { DecimalValueOf(IndexOf(names, t.name) + 1); }
    if undone == t {
      SameHead(Show(t), x, y);
    } else {
      assert (Show(undone) + x)[1] == undone.name[0];
      assert (Show(t) + y)[1] == t.digits[0];
    }
  }

  lemma {:induction false} UndoExactly(ts: seq<Token>, names: seq<string>)
    requires (forall t :: t in ts ==> ScannedToken(t)) && forall n :: Named(n) in ts ==> n in names
    requires forall i :: 0 <= i < |names| ==> names[i] != "" && IsNameStart(names[i][0])
    ensures Undo(Rewrite(ts, names), names) == Render(ts) <==> NoneInRange(ts, |names|)
  {
    hide DecimalValue, UndoToken, RewriteToken, Show, ScannedToken;
    if ts == [] {
    } else {
      assert ts == [ts[0]] + ts[1..];
      assert ts[0].Named? ==> Named(ts[0].name) in ts;
      UndoExactly(ts[1..], names);
      UndoHead(ts[0], names, Undo(Rewrite(ts[1..], names), names), Render(ts[1..]));
      assert Rewrite(ts, names)[1..] == Rewrite(ts[1..], names);
    }
  }

  lemma SameHead(w: string, x: string, y: string)
    ensures w + x == w + y <==> x == y
  {
    if w + x == w + y {
      assert x == (w + x)[|w|..] == (w + y)[|w|..] == y;
    }
  }

  /** Putting the names back restores the source byte for byte, exactly when the source itself has no
      positional placeholder that the compiled text would give a meaning to. */
  lemma CompilerUndone(raw: string)
    ensures Undo(Tokens(PositionalText(raw)), ParamNames(raw)) == raw
            <==> NoneInRange(Tokens(raw), |ParamNames(raw)|)
  {
    var ts, names := Tokens(raw), ParamNames(raw);
    CollectNames(ts, []);
    Retokenise(raw, names);
    RenderTokens(raw);
    TokensAreScanned(raw);
    forall i | 0 <= i < |names| ensures names[i] != "" && IsNameStart(names[i][0]) {
      assert Named(names[i]) in ts;
    }
    UndoExactly(ts, names);
  }
}
