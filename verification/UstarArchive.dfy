/**
 The ustar writer of the semgrep streaming scan, and a reader for the same format.

 The writer is imperative as in the program: the header is a 512-byte buffer filled in place.
 The reader is not in the program; it is the "ustar Interchange Format" section of the pax utility
 in IEEE Std 1003.1-2017, read from the consumer's side.
 */
module UstarArchive {
  import opened Common

  type byte = x: int | 0 <= x < 256

  const BLOCK_SIZE := 512
  const NAME_MAX := 100
  const PREFIX_MAX := 155
  const DEFAULT_MODE: nat := 420 // 0o644
  const SPACE: byte := 0x20
  const ZERO_DIGIT: byte := 48

  datatype Entry = Entry(path: string, content: seq<byte>, mode: Option<nat>)
  datatype Split = Split(name: string, prefix: string)
  datatype TarError = UnsplittablePath(path: string)

  // ---------------------------------------------------------------- path splitting

  /** A '/' at k whose two sides fit the prefix and name fields. */
  predicate ValidSplit(path: string, k: nat) {
    k < |path| && path[k] == '/' && k <= PREFIX_MAX && |path| - k - 1 <= NAME_MAX
  }

  /** The leftmost valid split at or after k. */
  function FirstSplit(path: string, k: nat): (r: Option<nat>)
    requires k <= |path|
    ensures r.None? <==> forall j :: k <= j ==> !ValidSplit(path, j)
    ensures r.Some? ==> k <= r.value && ValidSplit(path, r.value)
                        && forall j :: k <= j < r.value ==> !ValidSplit(path, j)
    decreases |path| - k
  {
    if k == |path| then None
    else if ValidSplit(path, k) then Some(k)
    else FirstSplit(path, k + 1)
  }

  function SplitPath(path: string): Result<Split, TarError> {
    if |path| <= NAME_MAX then Success(Split(path, ""))
    else match FirstSplit(path, 0)
      case Some(k) => Success(Split(path[k + 1..], path[..k]))
      case None => Failure(UnsplittablePath(path))
  }

  method SplitUstarPath(path: string) returns (r: Result<Split, TarError>)
    ensures r == SplitPath(path)
    ensures r.Failure? <==> |path| > NAME_MAX && forall k: nat :: !ValidSplit(path, k)
    ensures |path| > NAME_MAX && r.Success? ==>
              exists k: nat :: ValidSplit(path, k) && r.value == Split(path[k + 1..], path[..k])
                          && forall j: nat :: ValidSplit(path, j) ==> |path| - j - 1 <= |r.value.name|
  {
    if |path| <= NAME_MAX {
      return Success(Split(path, ""));
    }
    var minSplitAt := |path| - NAME_MAX;
    var splitAt := if minSplitAt > 1 then minSplitAt else 1;
    while splitAt <= |path|
      invariant 1 <= splitAt <= |path| + 1
      invariant forall j :: 0 <= j < splitAt - 1 ==> !ValidSplit(path, j)
    {
      if path[splitAt - 1] == '/' {
        var prefix := path[..splitAt - 1];
        var name := path[splitAt..];
        if |prefix| <= PREFIX_MAX && |name| <= NAME_MAX {
          assert ValidSplit(path, splitAt - 1);
          return Success(Split(name, prefix));
        }
      }
      splitAt := splitAt + 1;
    }
    return Failure(UnsplittablePath(path));
  }

  /** How a reader puts the two fields back together. */
  function JoinPath(prefix: string, name: string): string {
    if prefix == "" then name else prefix + "/" + name
  }

  // ---------------------------------------------------------------- octal fields

  predicate IsOctalDigit(b: byte) { 48 <= b <= 55 }

  function OctalDigits(v: nat): (ds: seq<byte>)
    ensures |ds| > 0 && forall i :: 0 <= i < |ds| ==> IsOctalDigit(ds[i])
  {
    if v < 8 then [48 + v] else OctalDigits(v / 8) + [48 + v % 8]
  }

  /** Left-pads to n bytes and cuts what does not fit, as padStart followed by a bounded write does. */
  function PadOctal(v: nat, n: nat): (ds: seq<byte>)
    ensures |ds| == n && forall i :: 0 <= i < n ==> IsOctalDigit(ds[i])
  {
    var ds := OctalDigits(v);
    if |ds| >= n then ds[..n] else seq(n - |ds|, _ => ZERO_DIGIT) + ds
  }

  function OctalField(v: nat, length: nat): (f: seq<byte>)
    requires length > 0
    ensures |f| == length
  {
    PadOctal(v, length - 1) + [0]
  }

  function OctalValue(ds: seq<byte>): nat
    requires forall i :: 0 <= i < |ds| ==> IsOctalDigit(ds[i])
  {
    if ds == [] then 0
    else
      assert IsOctalDigit(ds[|ds| - 1]);
      8 * OctalValue(ds[..|ds| - 1]) + (ds[|ds| - 1] as int - 48)
  }

  /** The bytes before the first NUL or space. */
  function FieldText(f: seq<byte>): (t: seq<byte>)
    ensures |t| <= |f|
  {
    if f == [] || f[0] == 0 || f[0] == 32 then [] else [f[0]] + FieldText(f[1..])
  }

  function ReadOctal(f: seq<byte>): Option<nat> {
    var t := FieldText(f);
    if forall i :: 0 <= i < |t| ==> IsOctalDigit(t[i]) then Some(OctalValue(t)) else None
  }

  function Pow8(n: nat): nat { if n == 0 then 1 else 8 * Pow8(n - 1) }

  lemma {:induction false} OctalDigitsValue(v: nat)
    ensures OctalValue(OctalDigits(v)) == v
  {
    if v >= 8 {
      OctalDigitsValue(v / 8);
      assert OctalDigits(v)[..|OctalDigits(v)| - 1] == OctalDigits(v / 8);
    }
  }

  lemma {:induction false} OctalDigitsFit(v: nat, n: nat)
    requires n > 0
    ensures |OctalDigits(v)| <= n <==> v < Pow8(n)
  {
    if n == 1 {
      assert Pow8(1) == 8;
    } else if v >= 8 {
      OctalDigitsFit(v / 8, n - 1);
    } else {
      OctalDigitsFit(v, n - 1);
    }
  }

  lemma {:induction false} LeadingZeros(k: nat, ds: seq<byte>)
    requires forall i :: 0 <= i < |ds| ==> IsOctalDigit(ds[i])
    ensures var z := seq(k, _ => ZERO_DIGIT) + ds;
            (forall i :: 0 <= i < |z| ==> IsOctalDigit(z[i])) && OctalValue(z) == OctalValue(ds)
  {
    var z := seq(k, _ => ZERO_DIGIT) + ds;
    if ds != [] {
      assert z[..|z| - 1] == seq(k, _ => ZERO_DIGIT) + ds[..|ds| - 1];
      LeadingZeros(k, ds[..|ds| - 1]);
    } else if k > 0 {
      assert z[..|z| - 1] == seq(k - 1, _ => ZERO_DIGIT) + ds;
      LeadingZeros(k - 1, ds);
    }
  }

  lemma {:induction false} CutDigitsAreSmaller(v: nat, n: nat)
    requires 0 < n < |OctalDigits(v)|
    ensures OctalValue(OctalDigits(v)[..n]) < v
  {
    var ds := OctalDigits(v);
    assert ds[..n] == OctalDigits(v / 8)[..n];
    if n == |ds| - 1 {
      assert ds[..n] == OctalDigits(v / 8);
      OctalDigitsValue(v / 8);
    } else {
      CutDigitsAreSmaller(v / 8, n);
    }
  }

  lemma {:induction false} FieldTextOfDigits(ds: seq<byte>, tail: seq<byte>)
    requires forall i :: 0 <= i < |ds| ==> IsOctalDigit(ds[i])
    requires tail != [] && (tail[0] == 0 || tail[0] == SPACE)
    ensures FieldText(ds + tail) == ds
  {
    if ds == [] {
      assert ds + tail == tail;
    } else {
      assert (ds + tail)[1..] == ds[1..] + tail;
      FieldTextOfDigits(ds[1..], tail);
    }
  }

  /** What a reader gets back: the value itself exactly when its digits fit, a smaller one otherwise. */
  lemma PadOctalReadBack(v: nat, n: nat, tail: seq<byte>)
    requires n > 0 && tail != [] && (tail[0] == 0 || tail[0] == SPACE)
    ensures ReadOctal(PadOctal(v, n) + tail).Some?
    ensures ReadOctal(PadOctal(v, n) + tail) == Some(v) <==> v < Pow8(n)
  {
    var ds := OctalDigits(v);
    FieldTextOfDigits(PadOctal(v, n), tail);
    OctalDigitsFit(v, n);
    OctalDigitsValue(v);
    if |ds| > n {
      CutDigitsAreSmaller(v, n);
    } else {
      LeadingZeros(n - |ds|, ds);
      if |ds| == n { assert ds[..n] == ds; }
    }
  }

  // ---------------------------------------------------------------- string fields

  function CharByte(c: char): byte { c as int % 256 }

  function StringField(s: string, length: nat): (f: seq<byte>)
    ensures |f| == length
  {
    seq(length, i requires 0 <= i < length => if i < |s| then CharByte(s[i]) else 0)
  }

  function ReadString(f: seq<byte>): (s: string)
    ensures |s| <= |f|
  {
    if f == [] || f[0] == 0 then "" else [f[0] as char] + ReadString(f[1..])
  }

  predicate Representable(s: string) { forall i :: 0 <= i < |s| ==> 0 < s[i] as int < 256 }

  lemma {:induction false} ReadStringField(s: string, length: nat)
    requires |s| <= length
    ensures |ReadString(StringField(s, length))| <= |s|
    ensures ReadString(StringField(s, length)) == s <==> Representable(s)
  {
    var f := StringField(s, length);
    if s != "" && f[0] != 0 {
      assert f[1..] == StringField(s[1..], length - 1);
      ReadStringField(s[1..], length - 1);
      assert s == [s[0]] + s[1..];
      assert Representable(s) <==> 0 < s[0] as int < 256 && Representable(s[1..]);
    }
  }

  // ---------------------------------------------------------------- headers

  function Sum(bs: seq<byte>): nat {
    if bs == [] then 0 else Sum(bs[..|bs| - 1]) + bs[|bs| - 1]
  }

  function Spaces(): (f: seq<byte>) ensures |f| == 8 { seq(8, _ => SPACE) }

  /** Six octal digits, NUL, space: the one numeric field that does not end in a NUL. */
  function ChecksumField(sum: nat): (f: seq<byte>)
    ensures |f| == 8
  {
    PadOctal(sum, 6) + [0, SPACE]
  }

  function HeaderByte(split: Split, size: nat, mode: nat, checksum: seq<byte>, i: nat): byte
    requires |checksum| == 8 && i < BLOCK_SIZE
  {
    if i < 100 then StringField(split.name, NAME_MAX)[i]
    else if i < 108 then OctalField(mode, 8)[i - 100]
    else if i < 116 then OctalField(0, 8)[i - 108]
    else if i < 124 then OctalField(0, 8)[i - 116]
    else if i < 136 then OctalField(size, 12)[i - 124]
    else if i < 148 then OctalField(0, 12)[i - 136]
    else if i < 156 then checksum[i - 148]
    else if i == 156 then ZERO_DIGIT
    else if 257 <= i < 263 then StringField("ustar", 6)[i - 257]
    else if 263 <= i < 265 then StringField("00", 2)[i - 263]
    else if 345 <= i < 500 then StringField(split.prefix, PREFIX_MAX)[i - 345]
    else 0
  }

  function HeaderWith(split: Split, size: nat, mode: nat, checksum: seq<byte>): (h: seq<byte>)
    requires |checksum| == 8
    ensures |h| == BLOCK_SIZE
  {
    seq(BLOCK_SIZE, i requires 0 <= i < BLOCK_SIZE => HeaderByte(split, size, mode, checksum, i))
  }

  /** The header block: its checksum field holds the sum taken while that field was spaces. */
  function Header(split: Split, size: nat, mode: nat): (h: seq<byte>)
    ensures |h| == BLOCK_SIZE
  {
    HeaderWith(split, size, mode, ChecksumField(Sum(HeaderWith(split, size, mode, Spaces()))))
  }

  /** buf.write(octal, offset, length - 1) and the NUL after it. */
  method WriteOctalField(buf: array<byte>, offset: nat, length: nat, value: nat)
    requires 0 < length && offset + length <= buf.Length
    modifies buf
    ensures forall k :: 0 <= k < buf.Length ==>
                          buf[k] == if offset <= k < offset + length then OctalField(value, length)[k - offset]
                                    else old(buf[k])
  {
    var octal := PadOctal(value, length - 1);
    WriteBytes(buf, offset, octal);
    buf[offset + length - 1] := 0;
  }

  method WriteBytes(buf: array<byte>, offset: nat, bytes: seq<byte>)
    requires offset + |bytes| <= buf.Length
    modifies buf
    ensures forall k :: 0 <= k < buf.Length ==>
                          buf[k] == if offset <= k < offset + |bytes| then bytes[k - offset] else old(buf[k])
  {
    for i := 0 to |bytes|
      invariant forall k :: 0 <= k < buf.Length ==>
                              buf[k] == if offset <= k < offset + i then bytes[k - offset] else old(buf[k])
    {
      buf[offset + i] := bytes[i];
    }
  }

  method WriteStringField(buf: array<byte>, offset: nat, length: nat, value: string)
    requires offset + length <= buf.Length
    modifies buf
    ensures forall k :: 0 <= k < buf.Length ==>
                          buf[k] == if offset <= k < offset + length && k - offset < |value|
                                    then CharByte(value[k - offset]) else old(buf[k])
  {
    var n := if |value| < length then |value| else length;
    WriteBytes(buf, offset, seq(n, i requires 0 <= i < n => CharByte(value[i])));
  }

  method SumBuffer(buf: array<byte>) returns (checksum: nat)
    ensures checksum == Sum(buf[..])
  {
    checksum := 0;
    for i := 0 to buf.Length
      invariant checksum == Sum(buf[..i])
    {
      assert buf[..i + 1][..i] == buf[..i];
      checksum := checksum + buf[i];
    }
    assert buf[..buf.Length] == buf[..];
  }

  method BuildHeader(name: string, prefix: string, size: nat, mode: nat) returns (header: array<byte>)
    ensures fresh(header) && header[..] == Header(Split(name, prefix), size, mode)
  {
    header := new byte[BLOCK_SIZE](_ => 0);
    var split := Split(name, prefix);
    FillFields(header, split, size, mode);
    assert header[..] == HeaderWith(split, size, mode, Spaces());
    var checksum := SumBuffer(header);
    WriteBytes(header, 148, PadOctal(checksum, 6));
    header[148 + 6] := 0;
    header[148 + 7] := SPACE;
    assert header[..] == HeaderWith(split, size, mode, ChecksumField(checksum));
  }

  /** Every field but the checksum, which holds spaces while the sum is taken. */
  method FillFields(header: array<byte>, split: Split, size: nat, mode: nat)
    requires header.Length == BLOCK_SIZE && forall k :: 0 <= k < BLOCK_SIZE ==> header[k] == 0
    modifies header
    ensures forall k :: 0 <= k < BLOCK_SIZE ==> header[k] == HeaderByte(split, size, mode, Spaces(), k)
  {
    WriteStringField(header, 0, NAME_MAX, split.name);
    WriteOctalField(header, 100, 8, mode);
    WriteOctalField(header, 108, 8, 0);
    WriteOctalField(header, 116, 8, 0);
    WriteOctalField(header, 124, 12, size);
    WriteOctalField(header, 136, 12, 0);
    WriteBytes(header, 148, Spaces());
    header[156] := ZERO_DIGIT;
    WriteStringField(header, 257, 6, "ustar");
    WriteStringField(header, 263, 2, "00");
    WriteStringField(header, 345, PREFIX_MAX, split.prefix);
  }

  // ---------------------------------------------------------------- reading a header

  datatype HeaderInfo = HeaderInfo(path: string, size: nat, mode: nat)

  /** Checks magic, version, typeflag and checksum, then reads path, size and mode. */
  function ReadHeader(h: seq<byte>): Option<HeaderInfo>
    requires |h| == BLOCK_SIZE
  {
    if h[257..265] != [117, 115, 116, 97, 114, 0, 48, 48] || h[156] != 48 then None
    else if ReadOctal(h[148..156]) != Some(Sum(h[..148] + seq(8, _ => 32) + h[156..])) then None
    else match (ReadOctal(h[100..108]), ReadOctal(h[124..136]))
      case (Some(mode), Some(size)) =>
        Some(HeaderInfo(JoinPath(ReadString(h[345..500]), ReadString(h[..100])), size, mode))
      case _ => None
  }

  lemma HeaderFields(split: Split, size: nat, mode: nat, checksum: seq<byte>)
    requires |checksum| == 8
    ensures var h := HeaderWith(split, size, mode, checksum);
            && h[..100] == StringField(split.name, NAME_MAX) && h[345..500] == StringField(split.prefix, PREFIX_MAX)
            && h[100..108] == OctalField(mode, 8) && h[124..136] == OctalField(size, 12)
            && h[148..156] == checksum && h[156] == ZERO_DIGIT
            && h[257..265] == [117, 115, 116, 97, 114, 0, 48, 48]
  {
    var h := HeaderWith(split, size, mode, checksum);
    assert h[257..263] == StringField("ustar", 6) && h[263..265] == StringField("00", 2);
    assert h[257..265] == h[257..263] + h[263..265];
  }

  lemma {:induction false} SumBound(bs: seq<byte>)
    ensures Sum(bs) <= 255 * |bs|
  {
    if bs == [] {
    } else {
      SumBound(bs[..|bs| - 1]);
    }
  }

  /** The checksum refers to itself, yet every header carries one its reader accepts. */
  lemma ChecksumAccepted(split: Split, size: nat, mode: nat)
    ensures var h := Header(split, size, mode);
            ReadOctal(h[148..156]) == Some(Sum(h[..148] + seq(8, _ => 32) + h[156..]))
  {
    var blank := HeaderWith(split, size, mode, Spaces());
    var h := Header(split, size, mode);
    HeaderFields(split, size, mode, ChecksumField(Sum(blank)));
    assert h[..148] + seq(8, _ => 32) + h[156..] == blank;
    SumBound(blank);
    assert Pow8(6) == 262144;
    PadOctalReadBack(Sum(blank), 6, [0, SPACE]);
  }

  lemma HeaderReadBack(split: Split, size: nat, mode: nat)
    ensures ReadOctal(OctalField(mode, 8)).Some? && ReadOctal(OctalField(size, 12)).Some?
    ensures ReadHeader(Header(split, size, mode)) ==
            Some(HeaderInfo(JoinPath(ReadString(StringField(split.prefix, PREFIX_MAX)),
                                     ReadString(StringField(split.name, NAME_MAX))),
                            ReadOctal(OctalField(size, 12)).value,
                            ReadOctal(OctalField(mode, 8)).value))
  {
    ChecksumAccepted(split, size, mode);
    HeaderFields(split, size, mode, ChecksumField(Sum(HeaderWith(split, size, mode, Spaces()))));
    PadOctalReadBack(mode, 7, [0]);
    PadOctalReadBack(size, 11, [0]);
  }

  /** The one path shape the split loses: of 101 characters the first is the leftmost place to split, so a '/' there
      stays in neither field, whatever other '/' the path has. */
  predicate LosesLeadingSlash(path: string) { |path| == NAME_MAX + 1 && path[0] == '/' }

  predicate FaithfulPath(path: string) { Representable(path) && !LosesLeadingSlash(path) }

  lemma PathReadBack(path: string)
    requires SplitPath(path).Success?
    ensures var split := SplitPath(path).value;
            JoinPath(ReadString(StringField(split.prefix, PREFIX_MAX)),
                     ReadString(StringField(split.name, NAME_MAX))) == path
            <==> FaithfulPath(path)
  {
    var split := SplitPath(path).value;
    ReadStringField(split.prefix, PREFIX_MAX);
    ReadStringField(split.name, NAME_MAX);
    var prefix := ReadString(StringField(split.prefix, PREFIX_MAX));
    var name := ReadString(StringField(split.name, NAME_MAX));
    if |path| > NAME_MAX {
      var k := FirstSplit(path, 0).value;
      RepresentableAround(path, k);
      if k > 0 { JoinIsExact(path, k, prefix, name); }
    }
  }

  lemma RepresentableAround(path: string, k: nat)
    requires k < |path| && path[k] == '/'
    ensures Representable(path) <==> Representable(path[..k]) && Representable(path[k + 1..])
  {
    assert path == path[..k] + [path[k]] + path[k + 1..];
  }

  /** Around a '/' at k > 0, two texts no longer than the two sides join to the path only if they are the sides. */
  lemma JoinIsExact(path: string, k: nat, prefix: string, name: string)
    requires 0 < k < |path| && path[k] == '/' && |prefix| <= k && |name| <= |path| - k - 1
    ensures JoinPath(prefix, name) == path <==> prefix == path[..k] && name == path[k + 1..]
  {
    if JoinPath(prefix, name) == path {
      assert prefix != "";
      assert |prefix| == k;
      assert (prefix + "/" + name)[..k] == prefix && (prefix + "/" + name)[k + 1..] == name;
    }
    assert path == path[..k] + "/" + path[k + 1..];
  }

  /** A header reads back as what was asked for exactly when path, size and mode all fit their fields. */
  lemma HeaderFaithful(path: string, size: nat, mode: nat)
    requires SplitPath(path).Success?
    ensures ReadHeader(Header(SplitPath(path).value, size, mode)).Some?
    ensures ReadHeader(Header(SplitPath(path).value, size, mode)) == Some(HeaderInfo(path, size, mode))
            <==> FaithfulPath(path) && size < Pow8(11) && mode < Pow8(7)
  {
    HeaderReadBack(SplitPath(path).value, size, mode);
    PathReadBack(path);
    PadOctalReadBack(mode, 7, [0]);
    PadOctalReadBack(size, 11, [0]);
  }

  /** It does happen: behind a '/', any 100 bytes are written, and read back, without it. */
  lemma SlashLost(rest: string, size: nat, mode: nat)
    requires |rest| == NAME_MAX && Representable(rest) && size < Pow8(11) && mode < Pow8(7)
    ensures SplitPath("/" + rest) == Success(Split(rest, ""))
    ensures ReadHeader(Header(Split(rest, ""), size, mode)) == Some(HeaderInfo(rest, size, mode))
    ensures !FaithfulPath("/" + rest)
  {
    var path := "/" + rest;
    assert ValidSplit(path, 0) && path[1..] == rest && path[..0] == "";
    assert FirstSplit(path, 0) == Some(0);
    assert SplitPath(rest) == Success(Split(rest, ""));
    HeaderFaithful(rest, size, mode);
    hide Header, ReadHeader, Pow8;
  }

  // ---------------------------------------------------------------- archives

  function Padding(n: nat): nat { (BLOCK_SIZE - n % BLOCK_SIZE) % BLOCK_SIZE }

  function Zeros(n: nat): (z: seq<byte>) ensures |z| == n { seq(n, _ => 0) }

  method PadToBlock(buf: seq<byte>) returns (r: seq<byte>)
    ensures r == buf + Zeros(Padding(|buf|)) && |r| % BLOCK_SIZE == 0
  {
    var remainder := |buf| % BLOCK_SIZE;
    if remainder == 0 {
      return buf;
    }
    r := buf + Zeros(BLOCK_SIZE - remainder);
  }

  /** path.split(sep) for a one-character separator. */
  function Segments(path: string, sep: char): (r: seq<string>)
    ensures r != []
  {
    if path == "" then [""]
    else
      var rest := Segments(path[1..], sep);
      if path[0] == sep then [""] + rest else [[path[0]] + rest[0]] + rest[1..]
  }

  function JoinWith(parts: seq<string>, glue: string): string {
    if parts == [] then "" else if |parts| == 1 then parts[0] else parts[0] + glue + JoinWith(parts[1..], glue)
  }

  function ToPosix(path: string, sep: char): string { JoinWith(Segments(path, sep), "/") }

  /** The path with every separator a '/', one character at a time. */
  function Slashed(path: string, sep: char): string {
    seq(|path|, i requires 0 <= i < |path| => if path[i] == sep then '/' else path[i])
  }

  /** Splitting and joining replaces each separator by a '/', and so nothing where that is the separator. */
  lemma {:induction false} ToPosixReplaces(path: string, sep: char)
    ensures ToPosix(path, sep) == Slashed(path, sep)
    ensures sep == '/' ==> ToPosix(path, sep) == path
  {
    if path == "" {
    } else {
      ToPosixReplaces(path[1..], sep);
      var segments, rest := Segments(path, sep), Segments(path[1..], sep);
      assert Slashed(path, sep) == [if path[0] == sep then '/' else path[0]] + Slashed(path[1..], sep);
      if path[0] == sep {
        assert segments[1..] == rest;
      } else {
        assert segments[1..] == rest[1..];
        var more := JoinWith(rest[1..], "/");
        assert |rest| > 1 ==> [path[0]] + (rest[0] + "/" + more) == [path[0]] + rest[0] + "/" + more;
      }
      assert JoinWith(segments, "/") == [if path[0] == sep then '/' else path[0]] + JoinWith(rest, "/");
      assert sep == '/' ==> Slashed(path, sep) == path;
    }
  }

  function ModeOf(entry: Entry): nat {
    match entry.mode case Some(m) => m case None => DEFAULT_MODE
  }

  function EntryBytes(entry: Entry, split: Split): (b: seq<byte>)
    ensures |b| >= BLOCK_SIZE
  {
    Header(split, |entry.content|, ModeOf(entry)) + entry.content + Zeros(Padding(|entry.content|))
  }

  /** The whole archive, or the first path that does not split. */
  function Archive(entries: seq<Entry>, sep: char): Result<seq<byte>, TarError> {
    if entries == [] then Success(Zeros(2 * BLOCK_SIZE))
    else match SplitPath(ToPosix(entries[0].path, sep))
      case Failure(e) => Failure(e)
      case Success(split) =>
        match Archive(entries[1..], sep)
        case Failure(e) => Failure(e)
        case Success(rest) => Success(EntryBytes(entries[0], split) + rest)
  }

  function Flatten(parts: seq<seq<byte>>): seq<byte> {
    if parts == [] then [] else Flatten(parts[..|parts| - 1]) + parts[|parts| - 1]
  }

  lemma FlattenTwo(parts: seq<seq<byte>>, x: seq<byte>, y: seq<byte>)
    ensures Flatten(parts + [x] + [y]) == Flatten(parts) + (x + y)
  {
    assert (parts + [x] + [y])[..|parts| + 1] == parts + [x];
    assert (parts + [x])[..|parts|] == parts;
    assert Flatten(parts) + x + y == Flatten(parts) + (x + y);
  }

  /** The result of a run that has already produced the given bytes. */
  function After(done: seq<byte>, r: Result<seq<byte>, TarError>): Result<seq<byte>, TarError> {
    match r case Failure(e) => Failure(e) case Success(rest) => Success(done + rest)
  }

  lemma ArchiveStep(done: seq<byte>, entries: seq<Entry>, i: nat, sep: char)
    requires i < |entries|
    ensures After(done, Archive(entries[i..], sep))
            == match SplitPath(ToPosix(entries[i].path, sep))
               case Failure(e) => Failure(e)
               case Success(split) => After(done + EntryBytes(entries[i], split), Archive(entries[i + 1..], sep))
  {
    assert entries[i..][1..] == entries[i + 1..];
    var split, tail := SplitPath(ToPosix(entries[i].path, sep)), Archive(entries[i + 1..], sep);
    if split.Success? && tail.Success? {
      var bytes := EntryBytes(entries[i], split.value);
      assert done + (bytes + tail.value) == done + bytes + tail.value;
    }
  }

  method BuildTarArchive(entries: seq<Entry>, sep: char) returns (r: Result<seq<byte>, TarError>)
    ensures r == Archive(entries, sep)
  {
    var parts: seq<seq<byte>> := [];
    assert entries[0..] == entries;
    if Archive(entries, sep).Success? {
      assert [] + Archive(entries, sep).value == Archive(entries, sep).value;
    }
    for i := 0 to |entries|
      invariant Archive(entries, sep) == After(Flatten(parts), Archive(entries[i..], sep))
    {
      var entry := entries[i];
      ArchiveStep(Flatten(parts), entries, i, sep);
      var split := SplitUstarPath(ToPosix(entry.path, sep));
      if split.Failure? {
        return Failure(split.error);
      }
      var header := BuildHeader(split.value.name, split.value.prefix, |entry.content|, ModeOf(entry));
      var padded := PadToBlock(entry.content);
      assert header[..] + padded == EntryBytes(entry, split.value);
      FlattenTwo(parts, header[..], padded);
      parts := parts + [header[..]];
      parts := parts + [padded];
    }
    assert entries[|entries|..] == [];
    assert (parts + [Zeros(2 * BLOCK_SIZE)])[..|parts|] == parts;
    parts := parts + [Zeros(2 * BLOCK_SIZE)];
    r := Success(Flatten(parts));
  }

  /** At most 100 characters, or a separator with at most 155 in front of it and at most 100 behind it. */
  predicate Splittable(path: string, sep: char) {
    |path| <= 100 || exists k | 0 <= k < |path| :: path[k] in {'/', sep} && k <= 155 && |path| - k - 1 <= 100
  }

  lemma SplittableMeaning(path: string, sep: char)
    ensures SplitPath(ToPosix(path, sep)).Success? <==> Splittable(path, sep)
    ensures !Splittable(path, sep) ==> SplitPath(ToPosix(path, sep)) == Failure(UnsplittablePath(Slashed(path, sep)))
  {
    ToPosixReplaces(path, sep);
    hide ToPosix;
    var posix := Slashed(path, sep);
    assert forall k :: 0 <= k < |path| ==> (posix[k] == '/' <==> path[k] in {'/', sep});
    if Splittable(path, sep) && |path| > 100 {
      var k :| 0 <= k < |path| && path[k] in {'/', sep} && k <= 155 && |path| - k - 1 <= 100;
      assert ValidSplit(posix, k);
    }
  }

  /** An archive is written exactly when every path can be split; the error names the first that cannot. */
  lemma {:induction false} ArchiveSucceeds(entries: seq<Entry>, sep: char)
    ensures match Archive(entries, sep)
            case Success(b) => forall e :: e in entries ==> Splittable(e.path, sep)
            case Failure(error) =>
              exists i | 0 <= i < |entries| ::
                && !Splittable(entries[i].path, sep) && error == UnsplittablePath(Slashed(entries[i].path, sep))
                && forall j :: 0 <= j < i ==> Splittable(entries[j].path, sep)
  {
    if entries == [] {
    } else {
      SplittableMeaning(entries[0].path, sep);
      ArchiveSucceeds(entries[1..], sep);
      hide ToPosix, SplitPath, Splittable, Slashed;
      assert forall e :: e in entries <==> e == entries[0] || e in entries[1..];
      assert forall i :: 0 < i < |entries| ==> entries[i] == entries[1..][i - 1];
    }
  }

  datatype ReadEntry = ReadEntry(path: string, content: seq<byte>, mode: nat)

  /** Follows the size fields and stops at two zero blocks; None for anything malformed. */
  function ReadArchive(b: seq<byte>): Option<seq<ReadEntry>>
    decreases |b|, 1
  {
    if |b| < 2 * BLOCK_SIZE then None
    else if b[..2 * BLOCK_SIZE] == Zeros(2 * BLOCK_SIZE) then Some([])
    else match ReadHeader(b[..BLOCK_SIZE])
      case None => None
      case Some(info) => ReadBody(b, info)
  }

  /** The entry whose header has been read, and everything after it. */
  function ReadBody(b: seq<byte>, info: HeaderInfo): Option<seq<ReadEntry>>
    requires |b| >= 2 * BLOCK_SIZE
    decreases |b|, 0
  {
    var end := BLOCK_SIZE + info.size + Padding(info.size);
    if |b| < end then None
    else match ReadArchive(b[end..])
      case None => None
      case Some(rest) => Some([ReadEntry(info.path, b[BLOCK_SIZE..BLOCK_SIZE + info.size], info.mode)] + rest)
  }

  /** An entry as it was given: its path with '/' for the separator, its bytes, and its mode or 0o644. */
  predicate IsEntry(read: ReadEntry, entry: Entry, sep: char) {
    && |read.path| == |entry.path|
    && (forall k :: 0 <= k < |entry.path| ==> read.path[k] == if entry.path[k] == sep then '/' else entry.path[k])
    && read.content == entry.content
    && read.mode == match entry.mode case Some(m) => m case None => 6 * 64 + 4 * 8 + 4
  }

  predicate AreEntries(r: Option<seq<ReadEntry>>, entries: seq<Entry>, sep: char) {
    r.Some? && |r.value| == |entries| && forall i :: 0 <= i < |entries| ==> IsEntry(r.value[i], entries[i], sep)
  }

  /** What an entry must satisfy to survive the format: characters that are bytes and not NUL, no '/' in front of 100
      others, less than 8 GiB, and a mode of at most seven octal digits. */
  predicate FaithfulEntry(entry: Entry, sep: char) {
    && Representable(Slashed(entry.path, sep))
    && !(|entry.path| == 101 && entry.path[0] in {'/', sep})
    && |entry.content| < 0x2_0000_0000 && (entry.mode.Some? ==> entry.mode.value < 0x20_0000)
  }

  lemma FaithfulMeaning(entry: Entry, sep: char)
    ensures FaithfulEntry(entry, sep)
            <==> FaithfulPath(ToPosix(entry.path, sep)) && |entry.content| < Pow8(11) && ModeOf(entry) < Pow8(7)
  {
    ToPosixReplaces(entry.path, sep);
    hide ToPosix;
    assert Pow8(4) == 4096 && Pow8(7) == 512 * Pow8(4) && Pow8(11) == 4096 * Pow8(7);
  }

  lemma PaddingFills(n: nat)
    ensures n + Padding(n) == 512 * ((n + 511) / 512)
  {
  }

  /** One block of header an entry, and as many as its content begins. */
  function BlockCount(entries: seq<Entry>): nat {
    if entries == [] then 0 else 1 + (|entries[0].content| + 511) / 512 + BlockCount(entries[1..])
  }

  lemma {:induction false} ArchiveLength(entries: seq<Entry>, sep: char)
    requires Archive(entries, sep).Success?
    ensures |Archive(entries, sep).value| == 512 * (BlockCount(entries) + 2)
  {
    if entries == [] {
    } else {
      ArchiveLength(entries[1..], sep);
      PaddingFills(|entries[0].content|);
    }
  }

  /** Reading one written entry: a header that reads back frames its content whatever the bytes say. */
  lemma ReadFirstEntry(entry: Entry, split: Split, rest: seq<byte>)
    requires |rest| >= BLOCK_SIZE
    ensures var b := EntryBytes(entry, split) + rest;
            && |b| >= 2 * BLOCK_SIZE && b[..2 * BLOCK_SIZE] != Zeros(2 * BLOCK_SIZE)
            && b[..BLOCK_SIZE] == Header(split, |entry.content|, ModeOf(entry))
            && var end := BLOCK_SIZE + |entry.content| + Padding(|entry.content|);
               |b| >= end && b[end..] == rest && b[BLOCK_SIZE..BLOCK_SIZE + |entry.content|] == entry.content
  {
    var b := EntryBytes(entry, split) + rest;
    assert b[156] == Header(split, |entry.content|, ModeOf(entry))[156] == ZERO_DIGIT;
    assert Zeros(2 * BLOCK_SIZE)[156] == 0;
    assert b[..2 * BLOCK_SIZE][156] == b[156];
  }

  function AsRead(entry: Entry, sep: char): ReadEntry {
    ReadEntry(ToPosix(entry.path, sep), entry.content, ModeOf(entry))
  }

  lemma ReadBodyExact(b: seq<byte>, info: HeaderInfo, first: ReadEntry, xs: seq<ReadEntry>)
    requires |b| >= 2 * BLOCK_SIZE
    requires |b| >= BLOCK_SIZE + |first.content| + Padding(|first.content|)
    requires b[BLOCK_SIZE..BLOCK_SIZE + |first.content|] == first.content
    ensures ReadBody(b, info) == Some([first] + xs)
            <==> info == HeaderInfo(first.path, |first.content|, first.mode)
                 && ReadArchive(b[BLOCK_SIZE + |first.content| + Padding(|first.content|)..]) == Some(xs)
  {
    var all := ReadBody(b, info);
    if all == Some([first] + xs) {
      assert all.value[0] == first;
      assert |all.value[0].content| == info.size;
      assert all.value[1..] == xs;
    }
  }

  lemma AsReadIsEntry(read: ReadEntry, entry: Entry, sep: char)
    ensures IsEntry(read, entry, sep) <==> read == AsRead(entry, sep)
  {
    ToPosixReplaces(entry.path, sep);
    hide ToPosix;
    if IsEntry(read, entry, sep) { assert read.path == Slashed(entry.path, sep); }
  }

  /** One entry is read back, and reading goes on where it ends, exactly when the entry is faithful. */
  lemma ReadOneEntry(entry: Entry, sep: char, rest: seq<byte>, xs: seq<ReadEntry>)
    requires SplitPath(ToPosix(entry.path, sep)).Success? && |rest| >= BLOCK_SIZE
    ensures ReadArchive(EntryBytes(entry, SplitPath(ToPosix(entry.path, sep)).value) + rest)
            == Some([AsRead(entry, sep)] + xs)
            <==> FaithfulEntry(entry, sep) && ReadArchive(rest) == Some(xs)
  {
    var path := ToPosix(entry.path, sep);
    var split := SplitPath(path).value;
    var b := EntryBytes(entry, split) + rest;
    ReadFirstEntry(entry, split, rest);
    HeaderFaithful(path, |entry.content|, ModeOf(entry));
    FaithfulMeaning(entry, sep);
    hide FaithfulEntry, FaithfulPath, ToPosix, SplitPath;
    var info := ReadHeader(Header(split, |entry.content|, ModeOf(entry))).value;
    assert ReadArchive(b) == ReadBody(b, info);
    ReadBodyExact(b, info, AsRead(entry, sep), xs);
  }

  function Expected(entries: seq<Entry>, sep: char): seq<ReadEntry> {
    seq(|entries|, i requires 0 <= i < |entries| => AsRead(entries[i], sep))
  }

  lemma {:induction false} ReadsExpected(entries: seq<Entry>, sep: char)
    requires Archive(entries, sep).Success?
    ensures ReadArchive(Archive(entries, sep).value) == Some(Expected(entries, sep))
            <==> forall e :: e in entries ==> FaithfulEntry(e, sep)
  {
    if entries == [] {
      assert Archive(entries, sep).value[..2 * BLOCK_SIZE] == Zeros(2 * BLOCK_SIZE);
      assert Expected(entries, sep) == [];
    } else {
      ArchiveLength(entries[1..], sep);
      ReadsExpected(entries[1..], sep);
      ReadOneEntry(entries[0], sep, Archive(entries[1..], sep).value, Expected(entries[1..], sep));
      assert Expected(entries, sep) == [AsRead(entries[0], sep)] + Expected(entries[1..], sep);
      hide ReadArchive, AsRead, FaithfulEntry, ToPosix, SplitPath;
      assert forall e :: e in entries <==> e == entries[0] || e in entries[1..];
    }
  }

  /** Reading undoes writing exactly when every entry fits: no content, header-like or zero, breaks the framing. */
  lemma ArchiveRoundTrip(entries: seq<Entry>, sep: char)
    requires Archive(entries, sep).Success?
    ensures AreEntries(ReadArchive(Archive(entries, sep).value), entries, sep)
            <==> forall e :: e in entries ==> FaithfulEntry(e, sep)
  {
    ReadsExpected(entries, sep);
    var read := ReadArchive(Archive(entries, sep).value);
    hide Archive, ReadArchive, FaithfulEntry, IsEntry, AsRead;
    forall i, x | 0 <= i < |entries| ensures IsEntry(x, entries[i], sep) <==> x == AsRead(entries[i], sep) {
      AsReadIsEntry(x, entries[i], sep);
    }
    if AreEntries(read, entries, sep) { assert read.value == Expected(entries, sep); }
  }

  /** Where the separator is '/', faithful entries come back under their own paths. */
  lemma PathsKept(entries: seq<Entry>)
    requires Archive(entries, '/').Success? && forall e :: e in entries ==> FaithfulEntry(e, '/')
    ensures var read := ReadArchive(Archive(entries, '/').value);
            read.Some? && |read.value| == |entries|
            && forall i :: 0 <= i < |entries| ==> read.value[i].path == entries[i].path
  {
    ArchiveRoundTrip(entries, '/');
    hide Archive, ReadArchive, FaithfulEntry;
  }

  /** Entries that read alike: only a missing mode and the default one are not told apart, nor '/' and the separator. */
  predicate Alike(e: Entry, f: Entry, sep: char) {
    && Slashed(e.path, sep) == Slashed(f.path, sep) && e.content == f.content
    && (e.mode == f.mode || (e.mode, f.mode) in {(None, Some(420)), (Some(420), None)})
  }

  lemma ReadAlike(read: ReadEntry, e: Entry, f: Entry, sep: char)
    requires IsEntry(read, e, sep) && IsEntry(read, f, sep)
    ensures Alike(e, f, sep)
  {
    assert read.path == Slashed(e.path, sep) && read.path == Slashed(f.path, sep);
  }

  /** Two lists of faithful entries with the same archive are the same list. */
  lemma {:induction false} ArchiveInjective(es: seq<Entry>, fs: seq<Entry>, sep: char)
    requires Archive(es, sep).Success? && Archive(es, sep) == Archive(fs, sep)
    requires forall e :: e in es ==> FaithfulEntry(e, sep)
    requires forall e :: e in fs ==> FaithfulEntry(e, sep)
    ensures |es| == |fs| && forall i :: 0 <= i < |es| ==> Alike(es[i], fs[i], sep)
  {
    hide Archive, ReadArchive, FaithfulEntry, IsEntry, Alike;
    ArchiveRoundTrip(es, sep);
    ArchiveRoundTrip(fs, sep);
    var read := ReadArchive(Archive(es, sep).value).value;
    forall i | 0 <= i < |es| ensures Alike(es[i], fs[i], sep) { ReadAlike(read[i], es[i], fs[i], sep); }
  }
}
