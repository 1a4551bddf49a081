/**
 The comment-blanking scanner of the source guards: comments become spaces, every other character
 and every newline keeps its index, and literals are copied through with their escapes.

 The scanner is a pair of nested loops over whole segments. Its specification is an automaton that
 gives each single character a role, from its predecessor's role and one character of lookahead.
 */
module CommentBlanking {
  import opened Common

  datatype Role =
    | Plain
    | Opening(quote: char) | Inside(quote: char) | Backslash(quote: char) | Escaped(quote: char) | Closing
    | Line
    | OpenSlash | OpenStar | Block | CloseStar | CloseSlash
  {
    predicate IsComment() { Line? || OpenSlash? || OpenStar? || Block? || CloseStar? || CloseSlash? }

    predicate InLiteral(q: char) { this in {Opening(q), Inside(q), Escaped(q)} }
  }

  predicate IsQuote(c: char) { c == '`' || c == '\'' || c == '"' }

  function FreshRole(c: char, next: Option<char>): Role {
    if IsQuote(c) then Opening(c)
    else if c == '/' && next == Some('/') then Line
    else if c == '/' && next == Some('*') then OpenSlash
    else Plain
  }

  function LiteralRole(quote: char, c: char, next: Option<char>): Role {
    if c == '\\' && next != None then Backslash(quote) else if c == quote then Closing else Inside(quote)
  }

  function BlockRole(c: char, next: Option<char>): Role {
    if c == '*' && next == Some('/') then CloseStar else Block
  }

  function Follow(prev: Role, c: char, next: Option<char>): Role {
    match prev
    case Opening(q) => LiteralRole(q, c, next)
    case Inside(q) => LiteralRole(q, c, next)
    case Escaped(q) => LiteralRole(q, c, next)
    case Backslash(q) => Escaped(q)
    case Line => if c == '\n' then Plain else Line
    case OpenSlash => OpenStar
    case OpenStar => BlockRole(c, next)
    case Block => BlockRole(c, next)
    case CloseStar => CloseSlash
    case _ => FreshRole(c, next)
  }

  function CharAt(s: string, i: nat): Option<char> { if i < |s| then Some(s[i]) else None }

  function RoleAt(s: string, i: nat): Role
    requires i < |s|
  {
    Follow(if i == 0 then Plain else RoleAt(s, i - 1), s[i], CharAt(s, i + 1))
  }

  /** The role of the character before i; the start of the text counts as code. */
  function RoleBefore(s: string, i: nat): Role
    requires i <= |s|
  {
    if i == 0 then Plain else RoleAt(s, i - 1)
  }

  function BlankChar(s: string, i: nat): char
    requires i < |s|
  {
    if RoleAt(s, i).IsComment() && s[i] != '\n' then ' ' else s[i]
  }

  function Blank(s: string): (t: string)
    ensures |t| == |s|
  {
    seq(|s|, i requires 0 <= i < |s| => BlankChar(s, i))
  }

  // ---------------------------------------------------------------- the scanner

  predicate Done(content: string, i: nat, out: string) {
    i == |out| <= |content| && forall k :: 0 <= k < i ==> out[k] == BlankChar(content, k)
  }

  method StripComments(content: string) returns (out: string)
    ensures out == Blank(content)
  {
    out := "";
    var i := 0;
    var n := |content|;
    while i < n
      invariant Done(content, i, out)
      invariant i < n ==> RoleAt(content, i) == FreshRole(content[i], CharAt(content, i + 1))
      decreases n - i
    {
      var ch := content[i];
      var next := CharAt(content, i + 1);
      if IsQuote(ch) {
        i, out := CopyLiteral(content, i, out);
        continue;
      }
      if ch == '/' && next == Some('/') {
        ghost var atSlash := i;
        while i < n && content[i] != '\n'
          invariant atSlash <= i && Done(content, i, out)
          invariant i < n && content[i] != '\n' ==> RoleAt(content, i) == Line
          invariant i < n && content[i] == '\n' ==> RoleAt(content, i) == Plain
          invariant i == atSlash || RoleBefore(content, i) == Line
        {
          out := out + " ";
          i := i + 1;
        }
        continue;
      }
      if ch == '/' && next == Some('*') {
        i, out := BlankBlock(content, i, out);
        continue;
      }
      out := out + [ch];
      i := i + 1;
    }
  }

  method CopyLiteral(content: string, start: nat, before: string) returns (i: nat, out: string)
    requires start < |content| && Done(content, start, before)
    requires IsQuote(content[start]) && RoleAt(content, start) == Opening(content[start])
    ensures start < i && Done(content, i, out)
    ensures i < |content| ==> RoleBefore(content, i) == Closing
  {
    var quote := content[start];
    out := before + [quote];
    i := start + 1;
    while i < |content|
      invariant start < i && Done(content, i, out)
      invariant i < |content| ==> RoleBefore(content, i).InLiteral(quote)
      decreases |content| - i
    {
      var c := content[i];
      out := out + [c];
      if c == '\\' && i + 1 < |content| {
        out := out + [content[i + 1]];
        assert RoleAt(content, i + 1) == Escaped(quote);
        i := i + 2;
        continue;
      }
      i := i + 1;
      if c == quote {
        break;
      }
    }
  }

  method BlankBlock(content: string, start: nat, before: string) returns (i: nat, out: string)
    requires start + 1 < |content| && content[start + 1] == '*' && Done(content, start, before)
    requires content[start] == '/' && RoleAt(content, start) == OpenSlash
    ensures start < i && Done(content, i, out)
    ensures i < |content| ==> RoleBefore(content, i) == CloseSlash
  {
    assert RoleAt(content, start + 1) == OpenStar;
    out := before + "  ";
    i := start + 2;
    while i < |content| && !(content[i] == '*' && CharAt(content, i + 1) == Some('/'))
      invariant start + 2 <= i && Done(content, i, out)
      invariant RoleBefore(content, i) in {OpenStar, Block}
    {
      out := out + (if content[i] == '\n' then "\n" else " ");
      i := i + 1;
    }
    if i < |content| {
      assert RoleAt(content, i + 1) == CloseSlash;
      out := out + "  ";
      i := i + 2;
    }
  }

  // ---------------------------------------------------------------- scanning the output again

  /** In the output every literal character keeps its role and every comment character is plain code. */
  lemma {:induction false} OutputRoles(s: string, i: nat)
    requires i < |s|
    ensures RoleAt(Blank(s), i) == if RoleAt(s, i).IsComment() then Plain else RoleAt(s, i)
  {
    var t := Blank(s);
    if i == 0 {
    } else {
      OutputRoles(s, i - 1);
    }
    assert t[i] == BlankChar(s, i);
    if i + 1 < |s| { assert t[i + 1] == BlankChar(s, i + 1); }
  }

  /** So the output has no comment, and scanning it again changes nothing. */
  lemma Idempotent(s: string)
    ensures forall i :: 0 <= i < |s| ==> !RoleAt(Blank(s), i).IsComment()
    ensures Blank(Blank(s)) == Blank(s)
  {
    forall i | 0 <= i < |s|
      ensures !RoleAt(Blank(s), i).IsComment()
      ensures Blank(Blank(s))[i] == Blank(s)[i]
    {
      OutputRoles(s, i);
    }
  }

  lemma {:induction false} RoleQuotes(s: string, i: nat)
    requires i < |s|
    ensures var r := RoleAt(s, i);
            r.Opening? || r.Inside? || r.Backslash? || r.Escaped? ==> IsQuote(r.quote)
  {
    if i == 0 {
    } else {
      RoleQuotes(s, i - 1);
    }
  }

  /** A '//' or an opener of a block comment that is left in the output stands inside a literal of the input. */
  lemma NoOpenerLeft(s: string, i: nat)
    requires i + 1 < |s| && Blank(s)[i] == '/' && Blank(s)[i + 1] in {'/', '*'}
    ensures RoleAt(s, i).Inside? || RoleAt(s, i).Escaped?
  {
    OutputRoles(s, i);
    if i > 0 {
      RoleQuotes(Blank(s), i - 1);
    }
    assert !RoleAt(Blank(s), i).IsComment();
  }

  function LineOf(s: string, i: nat): nat
    requires i <= |s|
  {
    if i == 0 then 1 else LineOf(s, i - 1) + if s[i - 1] == '\n' then 1 else 0
  }

  /** Line numbers computed on the output are line numbers of the input. */
  lemma {:induction false} LinesKept(s: string, i: nat)
    requires i <= |s|
    ensures LineOf(Blank(s), i) == LineOf(s, i)
  {
    if i == 0 {
    } else {
      LinesKept(s, i - 1);
      assert Blank(s)[i - 1] == BlankChar(s, i - 1);
    }
  }

  // ---------------------------------------------------------------- what a text consists of

  /** A character of a literal, as itself or behind a backslash. */
  datatype Item = Char(c: char) | Escape(c: char)

  datatype Part =
    | Code(c: char)
    | Literal(quote: char, items: seq<Item>)
    | LineComment(text: string)
    | BlockComment(text: string)

  function ItemText(item: Item): string { match item case Char(c) => [c] case Escape(c) => ['\\', c] }

  function ItemsText(items: seq<Item>): string {
    if items == [] then "" else ItemText(items[0]) + ItemsText(items[1..])
  }

  function Printed(p: Part): string {
    match p
    case Code(c) => [c]
    case Literal(quote, items) => [quote] + ItemsText(items) + [quote]
    case LineComment(text) => "//" + text
    case BlockComment(text) => "/*" + text + "*/"
  }

  function Print(ps: seq<Part>): string { if ps == [] then "" else Printed(ps[0]) + Print(ps[1..]) }

  /** The characters of a comment as blanks, its line breaks kept. */
  function Blanks(w: string): string {
    seq(|w|, i requires 0 <= i < |w| => if w[i] == '\n' then '\n' else ' ')
  }

  function Blanked(p: Part): string {
    if p.LineComment? || p.BlockComment? then Blanks(Printed(p)) else Printed(p)
  }

  function BlankedAll(ps: seq<Part>): string { if ps == [] then "" else Blanked(ps[0]) + BlankedAll(ps[1..]) }

  predicate ClosesAt(w: string, j: nat) { j + 1 < |w| && w[j] == '*' && w[j + 1] == '/' }

  /** What a part is, and what may stand behind it so that it ends where it does. */
  predicate Fits(p: Part, rest: string) {
    match p
    case Code(c) => c !in {'`', '\'', '"'} && (c == '/' && rest != "" ==> rest[0] !in {'/', '*'})
    case Literal(quote, items) =>
      && quote in {'`', '\'', '"'}
      && forall i :: 0 <= i < |items| && items[i].Char? ==> items[i].c != quote && items[i].c != '\\'
    case LineComment(text) => '\n' !in text && (rest == "" || rest[0] == '\n')
    case BlockComment(text) => forall j :: 0 <= j < |text| ==> !ClosesAt(text, j)
  }

  predicate Fitting(ps: seq<Part>) { ps == [] || (Fits(ps[0], Print(ps[1..])) && Fitting(ps[1..])) }

  /** Position i is outside literals and comments. */
  predicate Outside(s: string, i: nat) {
    i <= |s| && (i < |s| ==> RoleAt(s, i) == FreshRole(s[i], CharAt(s, i + 1)))
  }

  /** The characters of the part at i are comment or not, as it is, and behind it lies code again. */
  predicate ReadAs(s: string, i: nat, p: Part) {
    var end := i + |Printed(p)|;
    && end <= |s| && Outside(s, end)
    && forall k :: i <= k < end ==> (RoleAt(s, k).IsComment() <==> p.LineComment? || p.BlockComment?)
  }

  /** The text w stands at i. */
  predicate Stands(s: string, i: nat, w: string) { i + |w| <= |s| && s[i..i + |w|] == w }

  lemma StandsParts(s: string, i: nat, v: string, w: string)
    requires Stands(s, i, v + w)
    ensures Stands(s, i, v) && Stands(s, i + |v|, w)
  {
    assert s[i..i + |v|] == s[i..i + |v + w|][..|v|];
    assert s[i + |v|..i + |v| + |w|] == s[i..i + |v + w|][|v|..];
  }

  lemma StandsAt(s: string, i: nat, w: string)
    requires Stands(s, i, w)
    ensures forall k :: i <= k < i + |w| ==> s[k] == w[k - i]
  {
    assert forall k :: i <= k < i + |w| ==> s[k] == s[i..i + |w|][k - i];
  }

  lemma RoleStep(s: string, i: nat)
    requires i < |s|
    ensures RoleAt(s, i) == Follow(RoleBefore(s, i), s[i], CharAt(s, i + 1))
  {
  }

  lemma ItemRead(s: string, i: nat, quote: char, item: Item)
    requires i > 0 && Stands(s, i, ItemText(item)) && i + |ItemText(item)| < |s| && RoleAt(s, i - 1).InLiteral(quote)
    requires item.Char? ==> item.c != quote && item.c != '\\'
    ensures var end := i + |ItemText(item)|;
            RoleAt(s, end - 1).InLiteral(quote) && forall k :: i <= k < end ==> !RoleAt(s, k).IsComment()
  {
    StandsAt(s, i, ItemText(item));
    RoleStep(s, i);
    RoleStep(s, i + 1);
    hide RoleAt;
    assert s[i] == ItemText(item)[0];
    if item.Escape? { assert RoleAt(s, i) == Backslash(quote); }
  }

  lemma {:induction false} FirstItem(items: seq<Item>, quote: char)
    requires items != []
    ensures ItemsText(items) + [quote] == ItemText(items[0]) + (ItemsText(items[1..]) + [quote])
    ensures |ItemsText(items)| == |ItemText(items[0])| + |ItemsText(items[1..])|
  {
    hide ItemText;
  }

  lemma {:induction false} ItemsRead(s: string, i: nat, quote: char, items: seq<Item>)
    requires i > 0 && Stands(s, i, ItemsText(items) + [quote]) && RoleAt(s, i - 1).InLiteral(quote)
    requires forall j :: 0 <= j < |items| && items[j].Char? ==> items[j].c != quote && items[j].c != '\\'
    requires quote != '\\'
    ensures var end := i + |ItemsText(items)|;
            RoleAt(s, end) == Closing && forall k :: i <= k < end ==> !RoleAt(s, k).IsComment()
    decreases |items|
  {
    if items == [] {
      StandsAt(s, i, [quote]);
      RoleStep(s, i);
      hide RoleAt;
    } else {
      var head, more := ItemText(items[0]), ItemsText(items[1..]) + [quote];
      FirstItem(items, quote);
      hide Stands, RoleAt, ItemText, ItemsText;
      StandsParts(s, i, head, more);
      StandsWithin(s, i + |head|, more);
      ItemRead(s, i, quote, items[0]);
      ItemsRead(s, i + |head|, quote, items[1..]);
    }
  }

  lemma StandsWithin(s: string, i: nat, w: string)
    requires Stands(s, i, w)
    ensures i + |w| <= |s|
  {
  }

  lemma {:induction false} LiteralRead(s: string, i: nat, p: Part)
    requires p.Literal? && Fits(p, "") && Outside(s, i) && Stands(s, i, Printed(p))
    ensures ReadAs(s, i, p)
  {
    var body := ItemsText(p.items) + [p.quote];
    assert Printed(p) == [p.quote] + body;
    StandsParts(s, i, [p.quote], body);
    StandsAt(s, i, [p.quote]);
    StandsWithin(s, i, [p.quote] + body);
    hide RoleAt, ItemsText, Stands, Printed, ReadAs;
    LiteralRoles(s, i, p.quote, p.items);
    assert |Printed(p)| == |ItemsText(p.items)| + 2;
    RolesRead(s, i, p);
  }

  lemma {:induction false} LiteralRoles(s: string, i: nat, quote: char, items: seq<Item>)
    requires i < |s| && s[i] == quote && quote in {'`', '\'', '"'} && Outside(s, i)
    requires Stands(s, i + 1, ItemsText(items) + [quote])
    requires forall j :: 0 <= j < |items| && items[j].Char? ==> items[j].c != quote && items[j].c != '\\'
    ensures var end := i + 1 + |ItemsText(items)|;
            end < |s| && RoleAt(s, end) == Closing && forall k :: i <= k <= end ==> !RoleAt(s, k).IsComment()
  {
    hide RoleAt, ItemsText, Stands;
    assert RoleAt(s, i) == Opening(quote);
    StandsWithin(s, i + 1, ItemsText(items) + [quote]);
    ItemsRead(s, i + 1, quote, items);
  }

  lemma {:induction false} RolesRead(s: string, i: nat, p: Part)
    requires p.Literal? && Printed(p) != "" && i + |Printed(p)| <= |s|
    requires RoleAt(s, i + |Printed(p)| - 1) == Closing
    requires forall k :: i <= k < i + |Printed(p)| ==> !RoleAt(s, k).IsComment()
    ensures ReadAs(s, i, p)
  {
    hide RoleAt, Printed;
    OutsideBehind(s, i + |Printed(p)|);
  }

  /** Code goes on behind a closing quote, a closed comment and the line break of a line comment. */
  lemma OutsideBehind(s: string, i: nat)
    requires 0 < i <= |s| && RoleAt(s, i - 1) in {Closing, CloseSlash, Plain}
    ensures Outside(s, i)
  {
  }

  lemma {:induction false} LineRead(s: string, i: nat, p: Part)
    requires p.LineComment? && Outside(s, i) && Stands(s, i, Printed(p)) && Fits(p, s[i + |Printed(p)|..])
    ensures ReadAs(s, i, p)
  {
    var w := Printed(p);
    StandsAt(s, i, w);
    var end := i + |w|;
    assert w[0] == '/' && w[1] == '/' && '\n' !in w;
    LineRoles(s, i, |w|);
    if end < |s| {
      assert s[end..][0] == s[end];
      RoleStep(s, end);
    }
    hide RoleAt;
  }

  lemma {:induction false} LineRoles(s: string, i: nat, n: nat)
    requires n >= 2 && i + n <= |s| && s[i] == '/' && s[i + 1] == '/' && Outside(s, i)
    requires forall k :: i <= k < i + n ==> s[k] != '\n'
    ensures forall k :: i <= k < i + n ==> RoleAt(s, k) == Line
  {
    RoleStep(s, i + n - 1);
    hide RoleAt;
    if n > 2 {
      LineRoles(s, i, n - 1);
    } else {
      assert RoleAt(s, i) == Line;
    }
  }

  lemma {:induction false} BlockRead(s: string, i: nat, p: Part)
    requires p.BlockComment? && Fits(p, "") && Outside(s, i) && Stands(s, i, Printed(p))
    ensures ReadAs(s, i, p)
  {
    var w, n := Printed(p), |p.text|;
    assert w == "/*" + (p.text + "*/");
    hide RoleAt, Stands;
    StandsWithin(s, i, w);
    StandsParts(s, i, "/*", p.text + "*/");
    StandsAt(s, i, "/*");
    BlockText(s, i + 2, p.text);
    BlockRoles(s, i, n);
    var end := i + |w|;
    RoleStep(s, end - 2);
    RoleStep(s, end - 1);
    OutsideBehind(s, end);
  }

  lemma {:induction false} BlockText(s: string, i: nat, text: string)
    requires Stands(s, i, text + "*/") && forall j :: 0 <= j < |text| ==> !ClosesAt(text, j)
    ensures i + |text| + 2 <= |s| && s[i + |text|] == '*' && s[i + |text| + 1] == '/'
    ensures forall k :: i <= k < i + |text| ==> !ClosesAt(s, k)
  {
    var w := text + "*/";
    StandsAt(s, i, w);
    assert s[i + |text|] == w[|text|] && s[i + |text| + 1] == w[|text| + 1];
    forall k | i <= k < i + |text| ensures !ClosesAt(s, k) {
      assert !ClosesAt(text, k - i);
      assert s[k] == w[k - i] && s[k + 1] == w[k + 1 - i];
    }
  }

  lemma {:induction false} BlockRoles(s: string, i: nat, n: nat)
    requires i + 2 + n < |s| && s[i] == '/' && s[i + 1] == '*' && Outside(s, i)
    requires forall k :: i + 2 <= k < i + 2 + n ==> !ClosesAt(s, k)
    ensures RoleAt(s, i) == OpenSlash && RoleAt(s, i + 1) == OpenStar
    ensures forall k :: i + 2 <= k < i + 2 + n ==> RoleAt(s, k) == Block
  {
    RoleStep(s, i + 1 + n);
    hide RoleAt;
    if n > 0 {
      BlockRoles(s, i, n - 1);
      assert !ClosesAt(s, i + 1 + n);
    }
  }

  lemma {:induction false} PartRead(s: string, i: nat, p: Part)
    requires Outside(s, i) && Stands(s, i, Printed(p)) && Fits(p, s[i + |Printed(p)|..])
    ensures ReadAs(s, i, p)
  {
    match p
    case Code(c) =>
      assert s[i] == c;
      if i + 1 < |s| { assert s[i + 1..][0] == s[i + 1]; }
    case Literal(quote, items) => LiteralRead(s, i, p);
    case LineComment(text) => LineRead(s, i, p);
    case BlockComment(text) => BlockRead(s, i, p);
  }

  lemma {:induction false} PartThen(s: string, i: nat, p: Part, more: string)
    requires i <= |s| && s[i..] == Printed(p) + more && Fits(p, more) && Outside(s, i)
    ensures var end := i + |Printed(p)|;
            end <= |s| && s[end..] == more && Outside(s, end) && Blank(s)[i..end] == Blanked(p)
  {
    hide Fits, Printed, Blanked, BlankChar, RoleAt, Outside, Blank, Stands, ReadAs;
    CutHead(s, i, Printed(p), more);
    PartRead(s, i, p);
    OutsideThen(s, i, p);
    BlankSlice(s, i, p);
  }

  lemma {:induction false} PartsRead(s: string, i: nat, ps: seq<Part>)
    requires i <= |s| && s[i..] == Print(ps) && Fitting(ps) && Outside(s, i)
    ensures Blank(s)[i..] == BlankedAll(ps)
    decreases |ps|
  {
    hide Fits, Printed, Blanked, Outside, Blank;
    if ps == [] {
    } else {
      var end := i + |Printed(ps[0])|;
      PartThen(s, i, ps[0], Print(ps[1..]));
      PartsRead(s, end, ps[1..]);
      Rejoin(Blank(s), i, end);
    }
  }

  lemma Rejoin(s: string, i: nat, j: nat)
    requires i <= j <= |s|
    ensures s[i..] == s[i..j] + s[j..]
  {
  }

  lemma OutsideThen(s: string, i: nat, p: Part)
    requires ReadAs(s, i, p)
    ensures i + |Printed(p)| <= |s| && Outside(s, i + |Printed(p)|)
  {
    hide Printed, Outside;
  }

  lemma CutHead(s: string, i: nat, w: string, more: string)
    requires i <= |s| && s[i..] == w + more
    ensures i + |w| <= |s| && Stands(s, i, w) && s[i + |w|..] == more
  {
    assert s[i..][..|w|] == w && s[i..][|w|..] == more;
  }

  lemma BlankSlice(s: string, i: nat, p: Part)
    requires ReadAs(s, i, p) && Stands(s, i, Printed(p))
    ensures Blank(s)[i..i + |Printed(p)|] == Blanked(p)
  {
    hide Printed, Outside, RoleAt, Stands;
    StandsAt(s, i, Printed(p));
  }

  /** Code and literals, in any of the three quotes and with any escapes, stay as they are; comments become blanks. */
  lemma {:induction false} BlankPrinted(ps: seq<Part>)
    requires Fitting(ps)
    ensures Blank(Print(ps)) == BlankedAll(ps)
  {
    PartsRead(Print(ps), 0, ps);
    hide Fitting, BlankedAll, Blank, Print;
    assert Blank(Print(ps))[0..] == Blank(Print(ps));
  }
}
