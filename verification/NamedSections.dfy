/**
 The splitter for files of several named statements, and the guard's mirror of it.

 A section starts at a line `-- name: <label>`; its body is the trimmed text up to the next one.
 */
module NamedSections {
  import opened CharClasses
  import opened Common

  // ---------------------------------------------------------------- characters

  predicate IsLabelChar(c: char) { IsWord(c) || c == '-' }

  // ---------------------------------------------------------------- markers

  const MARKER := "-- name: "

  function LabelLen(s: string): (n: nat)
    ensures n <= |s|
  {
    if s == "" || !IsLabelChar(s[0]) then 0 else 1 + LabelLen(s[1..])
  }

  /** Most white space that can be taken from the head of s and still leave an end of line. */
  function SpaceToLineEnd(s: string): (r: Option<nat>)
    ensures r.Some? ==> r.value <= |s|
  {
    if s == "" then Some(0)
    else if !IsSpace(s[0]) then None
    else match SpaceToLineEnd(s[1..])
      case Some(n) => Some(n + 1)
      case None => if IsLineEnd(s[0]) then Some(0) else None
  }

  datatype Head = Head(length: nat, name: string)

  /** The marker at the head of s, where a line starts. */
  function MarkerHead(s: string): (r: Option<Head>)
    ensures r.Some? ==> |s| >= r.value.length > |MARKER|
  {
    if !(MARKER <= s && |s| > |MARKER| && IsWord(s[|MARKER|])) then None
    else
      var n := |MARKER| + LabelLen(s[|MARKER|..]);
      match SpaceToLineEnd(s[n..])
      case None => None
      case Some(k) => Some(Head(n + k, s[|MARKER|..n]))
  }

  predicate AtLineStart(s: string, i: nat)
    requires i <= |s|
  {
    i == 0 || IsLineEnd(s[i - 1])
  }

  datatype Marker = Marker(index: nat, end: nat, name: string)

  function MarkerAt(s: string, i: nat): Option<Marker>
    requires i <= |s|
  {
    if !AtLineStart(s, i) then None
    else match MarkerHead(s[i..])
      case None => None
      case Some(h) => Some(Marker(i, i + h.length, h.name))
  }

  function NextMarker(s: string, from: nat): (r: Option<Marker>)
    requires from <= |s|
    ensures r.Some? ==> from <= r.value.index < r.value.end <= |s|
    decreases |s| - from
  {
    if MarkerAt(s, from).Some? then MarkerAt(s, from)
    else if from == |s| then None
    else NextMarker(s, from + 1)
  }

  function Markers(s: string, from: nat): seq<Marker>
    requires from <= |s|
    decreases |s| - from
  {
    match NextMarker(s, from)
    case None => []
    case Some(m) => [m] + Markers(s, m.end)
  }

  predicate Ordered(s: string, from: nat, ms: seq<Marker>)
    requires from <= |s|
    decreases |ms|
  {
    if ms == [] then true
    else from <= ms[0].index < ms[0].end <= |s| && Ordered(s, ms[0].end, ms[1..])
  }

  lemma {:induction false} MarkersOrdered(s: string, from: nat)
    requires from <= |s|
    ensures Ordered(s, from, Markers(s, from))
    decreases |s| - from
  {
    match NextMarker(s, from)
    case None =>
    case Some(m) => MarkersOrdered(s, m.end);
  }

  // ---------------------------------------------------------------- sections

  function TrimStart(s: string): (t: string)
    ensures |t| <= |s|
  {
    if s != "" && IsSpace(s[0]) then TrimStart(s[1..]) else s
  }

  function TrimEnd(s: string): (t: string)
    ensures |t| <= |s|
  {
    if s != "" && IsSpace(s[|s| - 1]) then TrimEnd(s[..|s| - 1]) else s
  }

  function Trim(s: string): string { TrimEnd(TrimStart(s)) }

  datatype Section = Section(name: string, body: string)

  function SectionAt(s: string, ms: seq<Marker>, i: nat): Section
    requires Ordered(s, 0, ms) && i < |ms|
  {
    OrderedAt(s, 0, ms, i);
    Section(ms[i].name, Trim(s[ms[i].end..if i + 1 < |ms| then ms[i + 1].index else |s|]))
  }

  lemma {:induction false} OrderedAt(s: string, from: nat, ms: seq<Marker>, i: nat)
    requires from <= |s| && Ordered(s, from, ms) && i < |ms|
    ensures from <= ms[i].index < ms[i].end <= |s|
    ensures i + 1 < |ms| ==> ms[i].end <= ms[i + 1].index <= |s|
    decreases |ms|
  {
    if i > 0 {
      OrderedAt(s, ms[0].end, ms[1..], i - 1);
    } else if |ms| > 1 {
      assert ms[1..][0] == ms[1];
    }
  }

  /** The sections of a file, in file order. */
  function Sections(s: string): (r: seq<Section>)
    ensures |r| == |Markers(s, 0)|
  {
    MarkersOrdered(s, 0);
    seq(|Markers(s, 0)|, i requires 0 <= i < |Markers(s, 0)| => SectionAt(s, Markers(s, 0), i))
  }

  /** What a name is bound to when sections are stored one after the other: the last one wins. */
  function Stored(secs: seq<Section>): map<string, string> {
    if secs == [] then map[]
    else Stored(secs[..|secs| - 1])[secs[|secs| - 1].name := secs[|secs| - 1].body]
  }

  /** The first section with a name. */
  function FirstBody(secs: seq<Section>, name: string): Option<string> {
    if secs == [] then None
    else if secs[0].name == name then Some(secs[0].body)
    else FirstBody(secs[1..], name)
  }

  // ---------------------------------------------------------------- the loops

  method CollectMarkers(raw: string) returns (markers: seq<Marker>)
    ensures markers == Markers(raw, 0)
  {
    markers := [];
    var next := NextMarker(raw, 0);
    ghost var lastIndex := 0;
    while next.Some?
      invariant lastIndex <= |raw| && next == NextMarker(raw, lastIndex)
      invariant markers + Markers(raw, lastIndex) == Markers(raw, 0)
      decreases |raw| - lastIndex
    {
      markers := markers + [next.value];
      lastIndex := next.value.end;
      next := NextMarker(raw, next.value.end);
    }
  }

  method SplitNamedSections(raw: string) returns (sections: map<string, string>)
    ensures sections == Stored(Sections(raw))
  {
    var markers := CollectMarkers(raw);
    MarkersOrdered(raw, 0);
    sections := map[];
    for i := 0 to |markers|
      invariant sections == Stored(Sections(raw)[..i])
    {
      OrderedAt(raw, 0, markers, i);
      var nextIndex := if i + 1 < |markers| then markers[i + 1].index else |raw|;
      sections := sections[markers[i].name := Trim(raw[markers[i].end..nextIndex])];
      assert Sections(raw)[i] == SectionAt(raw, markers, i);
      assert Sections(raw)[..i + 1][..i] == Sections(raw)[..i];
    }
    assert Sections(raw)[..|markers|] == Sections(raw);
  }

  /** The guard's mirror: the text of one section. */
  method ResolveNamedSectionText(content: string, sectionName: string) returns (r: Option<string>)
    ensures r == FirstBody(Sections(content), sectionName)
  {
    var markers := CollectMarkers(content);
    MarkersOrdered(content, 0);
    for i := 0 to |markers|
      invariant FirstBody(Sections(content), sectionName) == FirstBody(Sections(content)[i..], sectionName)
    {
      assert Sections(content)[i] == SectionAt(content, markers, i);
      assert Sections(content)[i..][1..] == Sections(content)[i + 1..];
      if markers[i].name == sectionName {
        OrderedAt(content, 0, markers, i);
        var nextIndex := if i + 1 < |markers| then markers[i + 1].index else |content|;
        return Some(Trim(content[markers[i].end..nextIndex]));
      }
    }
    return None;
  }

  // ---------------------------------------------------------------- loader and mirror

  function LastBody(secs: seq<Section>, name: string): Option<string> {
    if secs == [] then None
    else if secs[|secs| - 1].name == name then Some(secs[|secs| - 1].body)
    else LastBody(secs[..|secs| - 1], name)
  }

  lemma {:induction false} StoredIsLast(secs: seq<Section>, name: string)
    ensures LastBody(secs, name) == if name in Stored(secs) then Some(Stored(secs)[name]) else None
  {
    if secs == [] {
    } else {
      StoredIsLast(secs[..|secs| - 1], name);
    }
  }

  ghost predicate DistinctLabels(secs: seq<Section>) {
    forall i, j :: 0 <= i < j < |secs| ==> secs[i].name != secs[j].name
  }

  lemma {:induction false} FirstBodyAt(secs: seq<Section>, name: string, i: nat)
    requires i < |secs| && secs[i].name == name && forall j :: 0 <= j < i ==> secs[j].name != name
    ensures FirstBody(secs, name) == Some(secs[i].body)
  {
    if i == 0 {
    } else {
      FirstBodyAt(secs[1..], name, i - 1);
    }
  }

  lemma {:induction false} LastBodyAt(secs: seq<Section>, name: string, i: nat)
    requires i < |secs| && secs[i].name == name && forall j :: i < j < |secs| ==> secs[j].name != name
    ensures LastBody(secs, name) == Some(secs[i].body)
  {
    if i < |secs| - 1 { LastBodyAt(secs[..|secs| - 1], name, i); }
  }

  lemma {:induction false} NoBody(secs: seq<Section>, name: string)
    requires forall i :: 0 <= i < |secs| ==> secs[i].name != name
    ensures FirstBody(secs, name) == None
  {
    if secs == [] {
    } else {
      NoBody(secs[1..], name);
    }
  }

  lemma {:induction false} NoLastBody(secs: seq<Section>, name: string)
    requires forall i :: 0 <= i < |secs| ==> secs[i].name != name
    ensures LastBody(secs, name) == None
  {
    if secs == [] {
    } else {
      NoLastBody(secs[..|secs| - 1], name);
    }
  }

  predicate IsFirst(secs: seq<Section>, name: string, i: nat) {
    i < |secs| && secs[i].name == name && forall k :: 0 <= k < i ==> secs[k].name != name
  }

  predicate IsLast(secs: seq<Section>, name: string, j: nat) {
    j < |secs| && secs[j].name == name && forall k :: j < k < |secs| ==> secs[k].name != name
  }

  lemma {:induction false} FirstExists(secs: seq<Section>, name: string, k: nat) returns (i: nat)
    requires k < |secs| && secs[k].name == name
    ensures IsFirst(secs, name, i)
  {
    if j :| 0 <= j < k && secs[j].name == name {
      i := FirstExists(secs, name, j);
    } else {
      i := k;
    }
  }

  lemma {:induction false} LastExists(secs: seq<Section>, name: string, k: nat) returns (j: nat)
    requires k < |secs| && secs[k].name == name
    ensures IsLast(secs, name, j)
    decreases |secs| - k
  {
    if i :| k < i < |secs| && secs[i].name == name {
      j := LastExists(secs, name, i);
    } else {
      j := k;
    }
  }

  function Lookup(stored: map<string, string>, name: string): Option<string> {
    if name in stored then Some(stored[name]) else None
  }

  /** For every name, present or absent, once or more often: loader and mirror agree exactly when its first and its last
      section, if it has any, have the same body. */
  lemma MirrorAgreesExactly(content: string, name: string)
    ensures var secs := Sections(content);
            FirstBody(secs, name) == Lookup(Stored(secs), name)
            <==> forall i: nat, j: nat :: IsFirst(secs, name, i) && IsLast(secs, name, j) ==>
                secs[i].body == secs[j].body
  {
    var secs := Sections(content);
    hide Sections;
    StoredIsLast(secs, name);
    if k :| 0 <= k < |secs| && secs[k].name == name {
      var i := FirstExists(secs, name, k);
      var j := LastExists(secs, name, k);
      FirstBodyAt(secs, name, i);
      LastBodyAt(secs, name, j);
      hide FirstBody, LastBody, Stored;
      assert forall m: nat :: IsFirst(secs, name, m) ==> m == i;
      assert forall m: nat :: IsLast(secs, name, m) ==> m == j;
    } else {
      NoBody(secs, name);
      NoLastBody(secs, name);
    }
  }

  /** With distinct labels the mirror returns what the loader stores, for every name, present or not. */
  lemma MirrorAgrees(content: string, name: string)
    requires DistinctLabels(Sections(content))
    ensures FirstBody(Sections(content), name) == Lookup(Stored(Sections(content)), name)
  {
    var secs := Sections(content);
    StoredIsLast(secs, name);
    if i :| 0 <= i < |secs| && secs[i].name == name {
      FirstBodyAt(secs, name, i);
      LastBodyAt(secs, name, i);
    } else {
      NoBody(secs, name);
      NoLastBody(secs, name);
    }
  }

  // ---------------------------------------------------------------- printing

  function PrintSection(sec: Section): string { "-- name: " + sec.name + "\n" + sec.body + "\n" }

  function PrintAll(secs: seq<Section>): string {
    if secs == [] then "" else PrintSection(secs[0]) + PrintAll(secs[1..])
  }

  /** A letter, digit or '_', then any of these and '-'. */
  predicate IsLabel(s: string) {
    && s != "" && s[0] != '-'
    && forall i :: 0 <= i < |s| ==>
         'a' <= s[i] <= 'z' || 'A' <= s[i] <= 'Z' || '0' <= s[i] <= '9' || s[i] == '_' || s[i] == '-'
  }

  /** A marker from i to k: at a line start the fixed part, a label up to j, and white space to a line end. */
  predicate MarkerText(s: string, i: nat, j: nat, k: nat) {
    && i + 9 <= j <= k <= |s| && (i == 0 || IsLineEnd(s[i - 1])) && s[i..i + 9] == "-- name: " && IsLabel(s[i + 9..j])
    && (forall m :: j <= m < k ==> IsSpace(s[m])) && (k == |s| || IsLineEnd(s[k]))
  }

  ghost predicate NoMarker(s: string) { forall i: nat, j: nat, k: nat :: !MarkerText(s, i, j, k) }

  predicate Trimmed(s: string) { s == "" || (!IsSpace(s[0]) && !IsSpace(s[|s| - 1])) }

  ghost predicate Printable(sec: Section) { IsLabel(sec.name) && Trimmed(sec.body) && NoMarker(sec.body) }

  /** Text in front of a marker line: empty, or whole lines. */
  predicate WholeLines(s: string) { s == "" || IsLineEnd(s[|s| - 1]) }

  // ---------------------------------------------------------------- what a marker is

  lemma {:induction false} LabelLenIs(s: string)
    ensures forall i :: 0 <= i < LabelLen(s) ==> IsLabelChar(s[i])
    ensures LabelLen(s) < |s| ==> !IsLabelChar(s[LabelLen(s)])
  {
    if s != "" && IsLabelChar(s[0]) { LabelLenIs(s[1..]); }
  }

  /** m white-space characters, and a line end. */
  predicate EndsLine(s: string, m: nat) {
    m <= |s| && (forall q :: 0 <= q < m ==> IsSpace(s[q])) && (m == |s| || IsLineEnd(s[m]))
  }

  lemma EndsLineTail(s: string, m: nat)
    requires s != "" && IsSpace(s[0]) && m > 0
    ensures EndsLine(s, m) <==> EndsLine(s[1..], m - 1)
  {
    if EndsLine(s[1..], m - 1) { assert forall q :: 0 < q < m ==> s[q] == s[1..][q - 1]; }
  }

  lemma {:induction false} SpaceToLineEndIs(s: string)
    ensures match SpaceToLineEnd(s)
            case None => forall m: nat :: !EndsLine(s, m)
            case Some(n) => EndsLine(s, n) && forall m: nat :: EndsLine(s, m) ==> m <= n
  {
    if s != "" && IsSpace(s[0]) {
      SpaceToLineEndIs(s[1..]);
      forall m: nat | m > 0 ensures EndsLine(s, m) <==> EndsLine(s[1..], m - 1) { EndsLineTail(s, m); }
      hide IsSpace;
    }
  }

  lemma LabelIs(w: string)
    ensures IsLabel(w) <==> w != "" && IsWord(w[0]) && forall i :: 0 <= i < |w| ==> IsLabelChar(w[i])
  {
  }

  /** The marker found at i has the label, and the greatest end, that the text allows; none is found where there is
      none. */
  lemma {:induction false} MarkerMeaning(s: string, i: nat)
    requires i <= |s|
    ensures match MarkerAt(s, i)
            case None => forall j: nat, k: nat :: !MarkerText(s, i, j, k)
            case Some(m) =>
              exists j: nat :: MarkerText(s, i, j, m.end) && m.index == i && m.name == s[i + 9..j]
                          && forall j': nat, k: nat :: MarkerText(s, i, j', k) ==> j' == j && k <= m.end
  {
    hide MarkerText, MarkerHead, AtLineStart, EndsLine;
    forall j: nat, k: nat | MarkerText(s, i, j, k) ensures AtLineStart(s, i) && HasLabel(s, i) {
      MarkerLabel(s, i, j, k);
    }
    if AtLineStart(s, i) && HasLabel(s, i) {
      var j := i + 9 + LabelLen(s[i + 9..]);
      forall k: nat ensures MarkerText(s, i, j, k) <==> j <= k <= |s| && EndsLine(s[j..], k - j) {
        MarkerFrom(s, i, k);
      }
      forall j': nat, k: nat | MarkerText(s, i, j', k) ensures j' == j && j <= k && EndsLine(s[j..], k - j) {
        MarkerLabel(s, i, j', k);
        MarkerFrom(s, i, k);
      }
      SpaceToLineEndIs(s[j..]);
      HeadFrom(s, i);
      if SpaceToLineEnd(s[j..]).Some? {
        var n := SpaceToLineEnd(s[j..]).value;
        assert EndsLine(s[j..], (j + n) - j);
        assert MarkerText(s, i, j, j + n);
        forall j': nat, k: nat | MarkerText(s, i, j', k) ensures k <= j + n { assert EndsLine(s[j..], k - j); }
        assert MarkerAt(s, i).value.end == j + n && MarkerAt(s, i).value.name == s[i + 9..j];
      }
    } else if AtLineStart(s, i) {
      HeadFrom(s, i);
    }
  }

  /** The fixed part stands at i, with a first label character behind it. */
  predicate HasLabel(s: string, i: nat) {
    i + 9 < |s| && s[i..i + 9] == "-- name: " && IsWord(s[i + 9])
  }

  lemma HeadFrom(s: string, i: nat)
    requires i <= |s|
    ensures MarkerHead(s[i..])
            == if !HasLabel(s, i) then None
               else
                 var j := i + 9 + LabelLen(s[i + 9..]);
                 match SpaceToLineEnd(s[j..]) case None => None case Some(n) => Some(Head(j + n - i, s[i + 9..j]))
  {
    hide LabelLen, SpaceToLineEnd;
    if i + 9 < |s| {
      assert s[i..][..9] == s[i..i + 9] && s[i..][9] == s[i + 9] && s[i..][9..] == s[i + 9..];
      var n := 9 + LabelLen(s[i + 9..]);
      assert s[i..][n..] == s[i + n..] && s[i..][9..n] == s[i + 9..i + n];
    }
  }

  lemma MarkerFrom(s: string, i: nat, k: nat)
    requires i <= |s| && AtLineStart(s, i) && HasLabel(s, i)
    ensures var j := i + 9 + LabelLen(s[i + 9..]);
            MarkerText(s, i, j, k) <==> j <= k <= |s| && EndsLine(s[j..], k - j)
  {
    var tail := s[i + 9..];
    LabelLenIs(tail);
    var j := i + 9 + LabelLen(tail);
    assert s[i + 9..j] == tail[..LabelLen(tail)] && tail[0] == s[i + 9];
    LabelIs(s[i + 9..j]);
    hide LabelLen, IsLabel, IsWord, IsSpace;
    if j <= k <= |s| {
      assert k < |s| ==> s[j..][k - j] == s[k];
      SpacesShift(s, j, k);
    }
  }

  lemma SpacesShift(s: string, j: nat, k: nat)
    requires j <= k <= |s|
    ensures (forall m :: j <= m < k ==> IsSpace(s[m])) <==> forall q :: 0 <= q < k - j ==> IsSpace(s[j..][q])
  {
    if forall q :: 0 <= q < k - j ==> IsSpace(s[j..][q]) {
      assert forall m :: j <= m < k ==> s[m] == s[j..][m - j];
    }
    hide IsSpace;
  }

  lemma MarkerLabel(s: string, i: nat, j: nat, k: nat)
    requires MarkerText(s, i, j, k)
    ensures i <= |s| && AtLineStart(s, i) && HasLabel(s, i) && j == i + 9 + LabelLen(s[i + 9..])
  {
    var label_, tail := s[i + 9..j], s[i + 9..];
    LabelIs(label_);
    assert label_[0] == s[i + 9];
    assert forall q :: 0 <= q < |label_| ==> tail[q] == label_[q];
    assert j < |s| ==> IsSpace(s[j]) && tail[j - i - 9] == s[j];
    SpaceEndsLabel();
    hide IsLabel, IsSpace, IsLabelChar, IsWord;
    LabelLenAt(tail, j - i - 9);
  }

  lemma SpaceEndsLabel()
    ensures forall c :: IsSpace(c) ==> !IsLabelChar(c)
  {
  }

  lemma {:induction false} LabelLenAt(s: string, n: nat)
    requires n <= |s| && (forall i :: 0 <= i < n ==> IsLabelChar(s[i])) && (n < |s| ==> !IsLabelChar(s[n]))
    ensures LabelLen(s) == n
  {
    if n > 0 { LabelLenAt(s[1..], n - 1); }
  }

  /** A body is its text without the white space at both ends, whatever white space that is. */
  lemma {:induction false} TrimMeaning(before: string, w: string, after: string)
    requires forall i :: 0 <= i < |before| ==> IsSpace(before[i])
    requires Trimmed(w) && forall i :: 0 <= i < |after| ==> IsSpace(after[i])
    ensures Trim(before + w + after) == w
  {
    TrimStartOf(before, w + after);
    assert before + w + after == before + (w + after);
    if w != "" {
      assert TrimStart(w + after) == w + after;
      TrimEndOf(w, after);
      assert TrimEnd(w) == w;
    } else {
      assert w + after == after;
      TrimStartOf(after, "");
      assert after + "" == after;
    }
  }

  lemma {:induction false} TrimStartOf(before: string, w: string)
    requires forall i :: 0 <= i < |before| ==> IsSpace(before[i])
    ensures TrimStart(before + w) == TrimStart(w)
  {
    if before == "" {
      assert before + w == w;
    } else {
      assert (before + w)[1..] == before[1..] + w;
      TrimStartOf(before[1..], w);
    }
  }

  lemma {:induction false} TrimEndOf(w: string, after: string)
    requires forall i :: 0 <= i < |after| ==> IsSpace(after[i])
    ensures TrimEnd(w + after) == TrimEnd(w)
  {
    if after == "" {
      assert w + after == w;
    } else {
      var n := |after| - 1;
      assert (w + after)[..|w + after| - 1] == w + after[..n];
      TrimEndOf(w, after[..n]);
    }
  }

  // ---------------------------------------------------------------- markers do not depend on their surroundings

  lemma {:induction false} LabelLenAppend(a: string, b: string)
    requires b == "" || !IsLabelChar(b[0])
    ensures LabelLen(a + b) == LabelLen(a)
  {
    if a == "" {
      assert a + b == b;
    } else if IsLabelChar(a[0]) {
      assert (a + b)[1..] == a[1..] + b;
      LabelLenAppend(a[1..], b);
    }
  }

  lemma {:induction false} LabelLenAll(a: string)
    requires forall i :: 0 <= i < |a| ==> IsLabelChar(a[i])
    ensures LabelLen(a) == |a|
  {
    if a == "" {
    } else {
      LabelLenAll(a[1..]);
    }
  }

  /** A line ends between a and b, or b is empty. */
  predicate Cut(a: string, b: string) {
    b == "" || IsLineEnd(b[0]) || (a != "" && IsLineEnd(a[|a| - 1]))
  }

  /** White space reaches a line end within a exactly when it does with b behind the cut. */
  lemma {:induction false} SpaceAppend(a: string, b: string)
    requires Cut(a, b)
    ensures SpaceToLineEnd(a + b).None? <==> SpaceToLineEnd(a).None?
  {
    if a == "" {
      assert a + b == b;
    } else if IsSpace(a[0]) {
      assert (a + b)[1..] == a[1..] + b;
      if Cut(a[1..], b) { SpaceAppend(a[1..], b); }
    }
  }

  /** No line ends inside the fixed part of a marker. */
  lemma MarkerFits(a: string, b: string)
    requires Cut(a, b) && MARKER <= a + b && |a + b| > |MARKER| && IsWord((a + b)[|MARKER|])
    ensures |a| > |MARKER|
  {
    var s := a + b;
    assert forall i :: 0 <= i < |MARKER| ==> s[i] == MARKER[i] && !IsLineEnd(s[i]);
    assert !IsLineEnd(s[|MARKER|]);
    assert a != "" ==> s[|a| - 1] == a[|a| - 1];
    assert b != "" ==> s[|a|] == b[0];
  }

  lemma MarkerHeadAppend(a: string, b: string)
    requires Cut(a, b)
    ensures MarkerHead(a + b).None? <==> MarkerHead(a).None?
  {
    var s, k := a + b, |MARKER|;
    if MARKER <= s && |s| > k && IsWord(s[k]) {
      MarkerFits(a, b);
      var t := a[k..];
      assert MARKER <= a && s[k..] == t + b && t[0] == s[k];
      LabelStops(t, b);
      var n := LabelLen(t);
      assert s[k + n..] == t[n..] + b && a[k + n..] == t[n..];
      SpaceAppend(t[n..], b);
    }
  }

  /** A label does not run over a cut. */
  lemma {:induction false} LabelStops(a: string, b: string)
    requires a != "" && Cut(a, b)
    ensures LabelLen(a + b) == LabelLen(a) && Cut(a[LabelLen(a)..], b)
  {
    assert (a + b)[1..] == a[1..] + b;
    if IsLabelChar(a[0]) {
      if |a| > 1 {
        LabelStops(a[1..], b);
        assert a[1..][LabelLen(a[1..])..] == a[LabelLen(a)..];
        hide Cut, IsLabelChar;
      } else {
        assert a[1..] + b == b;
      }
    }
  }

  /** Inside text without a marker there is none in the whole file either. */
  lemma NoMarkerWithin(x: string, a: string, b: string, i: nat)
    requires WholeLines(x) && NoMarker(a) && i <= |a| && Cut(a[i..], b)
    ensures MarkerAt(x + a + b, |x| + i).None?
  {
    var s := x + a + b;
    assert s[|x| + i..] == a[i..] + b;
    assert i > 0 ==> s[|x| + i - 1] == a[i - 1];
    MarkerMeaning(a, i);
    assert MarkerAt(a, i).None?;
    MarkerHeadAppend(a[i..], b);
  }

  lemma SkipOne(s: string, from: nat)
    requires from < |s| && MarkerAt(s, from).None?
    ensures NextMarker(s, from) == NextMarker(s, from + 1) && Markers(s, from) == Markers(s, from + 1)
  {
    hide MarkerAt;
  }

  lemma {:induction false} SkipToMarker(s: string, from: nat, target: nat)
    requires from <= target <= |s| && forall i: nat :: from <= i < target ==> MarkerAt(s, i).None?
    ensures NextMarker(s, from) == NextMarker(s, target) && Markers(s, from) == Markers(s, target)
    decreases |s| - from
  {
    hide MarkerAt, NextMarker, Markers;
    if from < target {
      SkipOne(s, from);
      SkipToMarker(s, from + 1, target);
    }
  }

  // ---------------------------------------------------------------- printing and splitting

  function Body(sec: Section, rest: string): string { "\n" + sec.body + "\n" + rest }

  /** How much of the white space behind a printed label its marker takes. */
  function Taken(sec: Section, rest: string): nat {
    if sec.body != "" then 0 else if rest == "" then 2 else 1
  }

  lemma SpaceAfterMarker(sec: Section, rest: string)
    requires Trimmed(sec.body) && (rest == "" || rest[0] == '-')
    ensures SpaceToLineEnd(Body(sec, rest)) == Some(Taken(sec, rest))
  {
    var u := Body(sec, rest);
    assert u[1..] == sec.body + ("\n" + rest);
    if sec.body != "" {
      assert SpaceToLineEnd(u[1..]) == None;
    } else {
      assert u[1..][1..] == rest;
      assert SpaceToLineEnd(rest) == if rest == "" then Some(0) else None;
      assert SpaceToLineEnd(u[1..]) == if rest == "" then Some(1) else Some(0);
    }
  }

  lemma PrintedParts(sec: Section, rest: string)
    ensures var s := PrintSection(sec) + rest;
            var k, l := |MARKER|, |sec.name|;
            && MARKER <= s && s[k..] == sec.name + Body(sec, rest)
            && s[k..k + l] == sec.name && s[k + l..] == Body(sec, rest)
  {
    assert PrintSection(sec) + rest == MARKER + (sec.name + Body(sec, rest));
  }

  /** The marker line of a printed section is read back. */
  lemma PrintedHead(sec: Section, rest: string)
    requires Printable(sec) && (rest == "" || rest[0] == '-')
    ensures MarkerHead(PrintSection(sec) + rest) == Some(Head(|MARKER| + |sec.name| + Taken(sec, rest), sec.name))
  {
    PrintedParts(sec, rest);
    LabelLenAll(sec.name);
    LabelLenAppend(sec.name, Body(sec, rest));
    SpaceAfterMarker(sec, rest);
    hide PrintSection, SpaceToLineEnd, LabelLen, NoMarker, Trimmed, Taken;
    assert (PrintSection(sec) + rest)[|MARKER|] == sec.name[0];
  }

  lemma TrimPrinted(body: string)
    requires Trimmed(body)
    ensures Trim("\n" + body + "\n") == body && Trim("\n") == "" && Trim("") == ""
  {
    var s := "\n" + body + "\n";
    if body != "" {
      assert s[1..] == body + "\n";
      assert (body + "\n")[..|body|] == body;
      assert TrimStart(s) == body + "\n";
      assert TrimEnd(body + "\n") == TrimEnd(body);
    } else {
      assert s[1..] == "\n" && s[1..][1..] == "";
    }
    assert TrimStart("\n") == TrimStart("");
  }

  /** ms are the markers of the printed sections, and cut out their bodies. */
  ghost predicate Cuts(s: string, ms: seq<Marker>, secs: seq<Section>)
    decreases |secs|
  {
    if secs == [] then ms == []
    else
      && ms != [] && ms[0].name == secs[0].name
      && Cuts(s, ms[1..], secs[1..])
      && var next := if |ms| > 1 then ms[1].index else |s|;
         ms[0].end <= next <= |s| && Trim(s[ms[0].end..next]) == secs[0].body
  }

  lemma PrintedMarker(x: string, sec: Section, rest: string)
    requires WholeLines(x) && Printable(sec) && (rest == "" || rest[0] == '-')
    ensures MarkerAt(x + PrintSection(sec) + rest, |x|)
            == Some(Marker(|x|, |x| + |MARKER| + |sec.name| + Taken(sec, rest), sec.name))
  {
    hide Printable, PrintSection, MarkerHead, Taken;
    var s := x + PrintSection(sec) + rest;
    assert s[|x|..] == PrintSection(sec) + rest;
    PrintedHead(sec, rest);
  }

  /** The rest of a file behind a printed label. */
  lemma BehindLabel(x: string, sec: Section, rest: string)
    ensures var s := x + PrintSection(sec) + rest;
            var from := |x| + |MARKER| + |sec.name|;
            && s == x + MARKER + sec.name + "\n" + sec.body + ("\n" + rest)
            && |x| + |PrintSection(sec)| == from + |sec.body| + 2
            && s[from] == '\n' && s[from + 1 + |sec.body|] == '\n'
            && s[from..from + |sec.body| + 2] == "\n" + sec.body + "\n"
  {
  }

  lemma NoMarkerAtLineEnd(s: string, i: nat)
    requires i < |s| && s[i] == '\n'
    ensures MarkerAt(s, i).None?
  {
    assert s[i..][0] == '\n';
  }

  lemma NoneBehind(x: string, sec: Section, rest: string, i: nat)
    requires WholeLines(x) && Printable(sec) && i < |sec.body| + 2
    ensures MarkerAt(x + PrintSection(sec) + rest, |x| + |MARKER| + |sec.name| + i).None?
  {
    hide MarkerAt;
    BehindLabel(x, sec, rest);
    var s := x + PrintSection(sec) + rest;
    var from := |x| + |MARKER| + |sec.name|;
    if i == 0 || i == |sec.body| + 1 {
      NoMarkerAtLineEnd(s, from + i);
    } else {
      NoMarkerWithin(x + MARKER + sec.name + "\n", sec.body, "\n" + rest, i - 1);
    }
  }

  lemma BodyCut(x: string, sec: Section, rest: string)
    requires Trimmed(sec.body)
    ensures var s := x + PrintSection(sec) + rest;
            var from, end := |x| + |MARKER| + |sec.name|, |x| + |PrintSection(sec)|;
            from + Taken(sec, rest) <= end && Trim(s[from + Taken(sec, rest)..end]) == sec.body
  {
    BehindLabel(x, sec, rest);
    TrimPrinted(sec.body);
    hide PrintSection, Trim;
    var s := x + PrintSection(sec) + rest;
    var from, end := |x| + |MARKER| + |sec.name|, |x| + |PrintSection(sec)|;
    if sec.body == "" {
      var t := s[from..end];
      assert t == "\n\n";
      assert s[from + Taken(sec, rest)..end] == t[Taken(sec, rest)..];
      assert t[2..] == "" && t[1..] == "\n";
    }
  }

  /** One printed section: its marker comes first, its body is cut out, and no further marker is in it. */
  lemma {:induction false} OnePrinted(x: string, sec: Section, rest: string)
    requires WholeLines(x) && Printable(sec) && (rest == "" || rest[0] == '-')
    ensures var s := x + PrintSection(sec) + rest;
            var end := |x| + |PrintSection(sec)|;
            && var m := NextMarker(s, |x|);
               m.Some? && m.value.index == |x| && m.value.name == sec.name && m.value.end <= end
               && Trim(s[m.value.end..end]) == sec.body
               && Markers(s, m.value.end) == Markers(s, end)
  {
    hide MarkerAt, Markers, Trim, PrintSection, Taken;
    var s := x + PrintSection(sec) + rest;
    PrintedMarker(x, sec, rest);
    BodyCut(x, sec, rest);
    NothingBehind(x, sec, rest);
  }

  lemma NothingBehind(x: string, sec: Section, rest: string)
    requires WholeLines(x) && Printable(sec) && (rest == "" || rest[0] == '-')
    ensures var s := x + PrintSection(sec) + rest;
            var from, end := |x| + |MARKER| + |sec.name|, |x| + |PrintSection(sec)|;
            from + Taken(sec, rest) <= end && Markers(s, from + Taken(sec, rest)) == Markers(s, end)
  {
    hide MarkerAt, Markers, NextMarker, Trim, Printable;
    var s := x + PrintSection(sec) + rest;
    var from, end := |x| + |MARKER| + |sec.name|, |x| + |PrintSection(sec)|;
    assert end == from + |sec.body| + 2;
    hide PrintSection;
    forall i: nat | from + Taken(sec, rest) <= i < end ensures MarkerAt(s, i).None? {
      NoneBehind(x, sec, rest, i - from);
    }
    SkipToMarker(s, from + Taken(sec, rest), end);
  }

  lemma PrintAllStart(secs: seq<Section>)
    ensures PrintAll(secs) == "" || PrintAll(secs)[0] == '-'
  {
  }

  lemma PrintedLines(x: string, sec: Section)
    ensures WholeLines(x + PrintSection(sec))
  {
  }

  lemma {:induction false} PrintedCuts(x: string, secs: seq<Section>)
    requires WholeLines(x) && forall i :: 0 <= i < |secs| ==> Printable(secs[i])
    ensures Cuts(x + PrintAll(secs), Markers(x + PrintAll(secs), |x|), secs)
    ensures secs != [] ==> var m := NextMarker(x + PrintAll(secs), |x|); m.Some? && m.value.index == |x|
    decreases |secs|
  {
    hide Printable, PrintSection, MarkerAt, Trim, WholeLines, NextMarker;
    var s := x + PrintAll(secs);
    if secs == [] {
    } else {
      var p, rest := PrintSection(secs[0]), PrintAll(secs[1..]);
      PrintAllStart(secs[1..]);
      OnePrinted(x, secs[0], rest);
      PrintedLines(x, secs[0]);
      PrintedCuts(x + p, secs[1..]);
      assert s == x + p + rest && |x + p| == |x| + |p|;
    }
  }

  lemma {:induction false} CutsAreSections(s: string, from: nat, ms: seq<Marker>, secs: seq<Section>, i: nat)
    requires from <= |s| && Ordered(s, from, ms) && Cuts(s, ms, secs) && i < |secs| == |ms|
    ensures ms[i].name == secs[i].name
    ensures var next := if i + 1 < |ms| then ms[i + 1].index else |s|;
            ms[i].end <= next <= |s| && Trim(s[ms[i].end..next]) == secs[i].body
    decreases |secs|
  {
    hide Trim;
    if i == 0 {
    } else {
      CutsAreSections(s, ms[0].end, ms[1..], secs[1..], i - 1);
    }
  }

  /** Splitting undoes printing, label for label and body for body, whatever prose comes first. */
  lemma SplitPrinted(header: string, secs: seq<Section>)
    requires WholeLines(header) && NoMarker(header) && forall i :: 0 <= i < |secs| ==> Printable(secs[i])
    ensures Sections(header + PrintAll(secs)) == secs
  {
    HeaderSkipped(header, PrintAll(secs));
    PrintedCuts(header, secs);
    hide *;
    SectionsOfCuts(header + PrintAll(secs), secs);
  }

  lemma HeaderSkipped(header: string, rest: string)
    requires WholeLines(header) && NoMarker(header)
    ensures Markers(header + rest, 0) == Markers(header + rest, |header|)
  {
    hide MarkerAt, Markers, NextMarker;
    var s := header + rest;
    assert s == "" + header + rest;
    forall i: nat | i < |header| ensures MarkerAt(s, i).None? {
      assert header[i..][|header| - i - 1] == header[|header| - 1];
      NoMarkerWithin("", header, rest, i);
    }
    SkipToMarker(s, 0, |header|);
  }

  lemma SectionsOfCuts(s: string, secs: seq<Section>)
    requires Cuts(s, Markers(s, 0), secs)
    ensures Sections(s) == secs
  {
    hide Cuts, Trim, Ordered;
    MarkersOrdered(s, 0);
    var ms := Markers(s, 0);
    CutsLength(s, ms, secs);
    forall i | 0 <= i < |secs| ensures Sections(s)[i] == secs[i] {
      CutsAreSections(s, 0, ms, secs, i);
      assert Sections(s)[i] == SectionAt(s, ms, i);
    }
  }

  lemma {:induction false} CutsLength(s: string, ms: seq<Marker>, secs: seq<Section>)
    requires Cuts(s, ms, secs)
    ensures |ms| == |secs|
    decreases |secs|
  {
    if secs == [] {
    } else {
      CutsLength(s, ms[1..], secs[1..]);
    }
  }

  /** Without distinct labels loader and mirror part: one keeps the last body, the other the first. */
  lemma DuplicateLabelsDiffer(name: string, first: string, last: string)
    requires IsLabel(name) && Printable(Section(name, first)) && Printable(Section(name, last))
    ensures var secs := Sections(PrintAll([Section(name, first), Section(name, last)]));
            FirstBody(secs, name) == Some(first) && name in Stored(secs) && Stored(secs)[name] == last
  {
    var secs := [Section(name, first), Section(name, last)];
    assert "" + PrintAll(secs) == PrintAll(secs);
    SplitPrinted("", secs);
    StoredIsLast(secs, name);
    FirstBodyAt(secs, name, 0);
    LastBodyAt(secs, name, 1);
  }
}
