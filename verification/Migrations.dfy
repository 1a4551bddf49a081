/**
 The forward-only migration runner: directory discovery as the program's loop, and the run itself as a
 transition system of many runners, one advisory lock, one database and a directory that may change.
 */
module Migrations {
  import opened CharClasses
  import opened Common

  // ---------------------------------------------------------------- file names

  datatype DirEntry = DirEntry(name: string, isFile: bool)
  datatype MigrationFile = MigrationFile(version: nat, slug: string, fileName: string)

  predicate IsSlugChar(c: char) { IsWord(c) || c == '-' }

  function Digit(c: char): nat requires IsDigit(c) { (c - '0') as nat }

  /** NNNN_<slug>.sql */
  function ParseName(name: string): Option<MigrationFile> {
    if |name| < 10 || name[4] != '_' || name[|name| - 4..] != ".sql" then None
    else if exists i | 0 <= i < 4 :: !IsDigit(name[i]) then None
    else if exists i | 5 <= i < |name| - 4 :: !IsSlugChar(name[i]) then None
    else
      var version := 1000 * Digit(name[0]) + 100 * Digit(name[1]) + 10 * Digit(name[2]) + Digit(name[3]);
      Some(MigrationFile(version, name[5..|name| - 4], name))
  }

  function DigitChar(d: nat): char requires d < 10 { '0' + d as char }

  predicate IsSlug(slug: string) {
    && slug != ""
    && forall i :: 0 <= i < |slug| ==>
         'a' <= slug[i] <= 'z' || 'A' <= slug[i] <= 'Z' || '0' <= slug[i] <= '9' || slug[i] in "_-"
  }

  function FourDigits(v: nat): string
    requires v < 10000
  {
    [DigitChar(v / 1000), DigitChar(v / 100 % 10), DigitChar(v / 10 % 10), DigitChar(v % 10)]
  }

  function FileName(v: nat, slug: string): string
    requires v < 10000
  {
    FourDigits(v) + "_" + slug + ".sql"
  }

  /** Every version below 10000 and every slug has a file name that parses back to them. */
  lemma NameReadBack(v: nat, slug: string)
    requires v < 10000 && IsSlug(slug)
    ensures ParseName(FileName(v, slug)) == Some(MigrationFile(v, slug, FileName(v, slug)))
  {
    var name, digits := FileName(v, slug), FourDigits(v);
    DigitsOf(v);
    hide FourDigits, IsSlugChar, IsDigit;
    assert name[|name| - 4..] == ".sql" && name[5..|name| - 4] == slug;
    assert forall i :: 5 <= i < |name| - 4 ==> name[i] == slug[i - 5];
    assert forall i :: 0 <= i < 4 ==> name[i] == digits[i];
  }

  lemma DigitsOf(v: nat)
    requires v < 10000
    ensures var digits := FourDigits(v);
            && |digits| == 4 && (forall i :: 0 <= i < 4 ==> IsDigit(digits[i]))
            && 1000 * Digit(digits[0]) + 100 * Digit(digits[1]) + 10 * Digit(digits[2]) + Digit(digits[3]) == v
  {
    assert v / 10 == v / 100 * 10 + v / 10 % 10;
    assert v / 100 == v / 1000 * 10 + v / 100 % 10;
    DigitBack(v / 1000);
    DigitBack(v / 100 % 10);
    DigitBack(v / 10 % 10);
    DigitBack(v % 10);
    hide DigitChar, Digit, IsDigit;
  }

  lemma DigitBack(d: nat)
    requires d < 10
    ensures IsDigit(DigitChar(d)) && Digit(DigitChar(d)) == d
  {
  }

  /** And no other name parses. */
  lemma NameIsExact(name: string)
    requires ParseName(name).Some?
    ensures var f := ParseName(name).value;
            f.version < 10000 && IsSlug(f.slug) && name == FileName(f.version, f.slug) == f.fileName
  {
    var f := ParseName(name).value;
    forall i | 0 <= i < |f.slug| ensures IsSlugChar(f.slug[i]) { assert f.slug[i] == name[i + 5]; }
    DigitsBack(name);
    assert name == name[..4] + [name[4]] + f.slug + ".sql";
  }

  lemma DigitsBack(name: string)
    requires ParseName(name).Some?
    ensures ParseName(name).value.version < 10000 && FourDigits(ParseName(name).value.version) == name[..4]
  {
    assert IsDigit(name[0]) && IsDigit(name[1]) && IsDigit(name[2]) && IsDigit(name[3]);
    DecimalDigits(Digit(name[0]), Digit(name[1]), Digit(name[2]), Digit(name[3]));
    assert forall c: char :: IsDigit(c) ==> DigitChar(Digit(c)) == c;
  }

  lemma DecimalDigits(a: nat, b: nat, c: nat, d: nat)
    requires a < 10 && b < 10 && c < 10 && d < 10
    ensures var v := 1000 * a + 100 * b + 10 * c + d;
            v < 10000 && v / 1000 == a && v / 100 % 10 == b && v / 10 % 10 == c && v % 10 == d
  {
    var v := 1000 * a + 100 * b + 10 * c + d;
    assert v / 100 == 10 * a + b && v / 10 == 100 * a + 10 * b + c;
  }

  predicate Ignored(e: DirEntry) { !e.isFile || e.name == "README.md" }

  datatype Error =
    | BadFileName(name: string)
    | DuplicateVersion(version: nat)
    | ChecksumMismatch(version: nat)
    | OutOfOrder(version: nat)
    | ApplyFailed(version: nat)
    | ReadFailed
    | StatementFailed

  // ---------------------------------------------------------------- sorting by version

  predicate Increasing(fs: seq<MigrationFile>) { forall i, j :: 0 <= i < j < |fs| ==> fs[i].version < fs[j].version }

  function Insert(f: MigrationFile, fs: seq<MigrationFile>): seq<MigrationFile> {
    if fs == [] || f.version <= fs[0].version then [f] + fs else [fs[0]] + Insert(f, fs[1..])
  }

  function SortByVersion(fs: seq<MigrationFile>): seq<MigrationFile> {
    if fs == [] then [] else Insert(fs[0], SortByVersion(fs[1..]))
  }

  ghost predicate DistinctVersions(fs: seq<MigrationFile>) {
    forall i, j :: 0 <= i < j < |fs| ==> fs[i].version != fs[j].version
  }

  lemma TailIsLarger(fs: seq<MigrationFile>)
    requires Increasing(fs) && fs != []
    ensures Increasing(fs[1..]) && forall f :: f in fs <==> f == fs[0] || f in fs[1..]
    ensures forall f :: f in fs[1..] ==> f.version > fs[0].version
  {
    assert fs == [fs[0]] + fs[1..];
    forall f | f in fs[1..] ensures f.version > fs[0].version {
      var i :| 0 <= i < |fs[1..]| && fs[1..][i] == f;
      assert fs[i + 1] == f;
    }
  }

  lemma ConsIncreasing(f: MigrationFile, fs: seq<MigrationFile>)
    requires Increasing(fs) && forall g :: g in fs ==> f.version < g.version
    ensures Increasing([f] + fs) && forall g :: g in [f] + fs <==> g == f || g in fs
  {
    forall i, j | 0 <= i < j < |fs| + 1 ensures ([f] + fs)[i].version < ([f] + fs)[j].version {
      assert ([f] + fs)[j] == fs[j - 1] && fs[j - 1] in fs;
      if i > 0 { assert ([f] + fs)[i] == fs[i - 1]; }
    }
  }

  lemma {:induction false} InsertSorted(f: MigrationFile, fs: seq<MigrationFile>)
    requires Increasing(fs) && forall g :: g in fs ==> g.version != f.version
    ensures Increasing(Insert(f, fs)) && |Insert(f, fs)| == |fs| + 1
    ensures forall g :: g in Insert(f, fs) <==> g == f || g in fs
  {
    if fs == [] {
    } else {
      TailIsLarger(fs);
      if f.version <= fs[0].version {
        ConsIncreasing(f, fs);
      } else {
        InsertSorted(f, fs[1..]);
        ConsIncreasing(fs[0], Insert(f, fs[1..]));
      }
      hide Increasing;
    }
  }

  lemma {:induction false} Sorted(fs: seq<MigrationFile>)
    requires DistinctVersions(fs)
    ensures Increasing(SortByVersion(fs)) && |SortByVersion(fs)| == |fs|
    ensures forall g :: g in SortByVersion(fs) <==> g in fs
  {
    if fs == [] {
    } else {
      Sorted(fs[1..]);
      assert fs == [fs[0]] + fs[1..];
      forall g | g in SortByVersion(fs[1..]) ensures g.version != fs[0].version {
        var i :| 0 <= i < |fs[1..]| && fs[1..][i] == g;
        assert g == fs[i + 1];
      }
      InsertSorted(fs[0], SortByVersion(fs[1..]));
    }
  }

  lemma FirstIsIn(fs: seq<MigrationFile>)
    ensures fs != [] ==> fs[0] in fs
  {
  }

  /** A strictly increasing list is determined by what is in it. */
  lemma {:induction false} IncreasingUnique(fs: seq<MigrationFile>, gs: seq<MigrationFile>)
    requires Increasing(fs) && Increasing(gs) && forall f :: f in fs <==> f in gs
    ensures fs == gs
  {
    if fs == [] {
      FirstIsIn(gs);
    } else {
      assert fs[0] in gs;
      TailIsLarger(fs);
      TailIsLarger(gs);
      assert gs[0] in fs;
      IncreasingUnique(fs[1..], gs[1..]);
    }
  }

  // ---------------------------------------------------------------- discovery

  /** The files of a listing in listing order, or the first error. */
  function Collect(entries: seq<DirEntry>): Result<seq<MigrationFile>, Error> {
    if entries == [] then Success([])
    else
      var n := |entries| - 1;
      match Collect(entries[..n])
      case Failure(e) => Failure(e)
      case Success(fs) =>
        if Ignored(entries[n]) then Success(fs)
        else match ParseName(entries[n].name)
          case None => Failure(BadFileName(entries[n].name))
          case Some(f) =>
            if exists g | g in fs :: g.version == f.version then Failure(DuplicateVersion(f.version))
            else Success(fs + [f])
  }

  function Discover(entries: seq<DirEntry>): Result<seq<MigrationFile>, Error> {
    match Collect(entries) case Failure(e) => Failure(e) case Success(fs) => Success(SortByVersion(fs))
  }

  method DiscoverMigrationFiles(entries: seq<DirEntry>) returns (r: Result<seq<MigrationFile>, Error>)
    ensures r == Discover(entries)
  {
    var files: seq<MigrationFile> := [];
    var seenVersions: map<nat, string> := map[];
    for i := 0 to |entries|
      invariant Collect(entries[..i]) == Success(files)
      invariant forall v :: v in seenVersions <==> exists f :: f in files && f.version == v
    {
      assert entries[..i + 1][..i] == entries[..i];
      var entry := entries[i];
      if !entry.isFile || entry.name == "README.md" {
        continue;
      }
      var parsed := ParseName(entry.name);
      if parsed.None? {
        CollectFailure(entries, i + 1);
        return Failure(BadFileName(entry.name));
      }
      var file := parsed.value;
      if file.version in seenVersions {
        assert exists g | g in files :: g.version == file.version;
        CollectFailure(entries, i + 1);
        return Failure(DuplicateVersion(file.version));
      }
      seenVersions := seenVersions[file.version := entry.name];
      files := files + [file];
    }
    assert entries[..|entries|] == entries;
    r := Success(SortByVersion(files));
  }

  lemma {:induction false} CollectFailure(entries: seq<DirEntry>, n: nat)
    requires n <= |entries| && Collect(entries[..n]).Failure?
    ensures Collect(entries) == Collect(entries[..n])
  {
    if n == |entries| {
      assert entries[..n] == entries;
    } else {
      var m := |entries| - 1;
      assert entries[..m][..n] == entries[..n];
      CollectFailure(entries[..m], n);
    }
  }

  /** A directory's migrations. */
  ghost predicate Holds(dir: set<DirEntry>, f: MigrationFile) {
    exists e :: e in dir && e.isFile && e.name != "README.md" && ParseName(e.name) == Some(f)
  }

  /** Every file name parses, and no two files share a version. */
  ghost predicate Usable(dir: set<DirEntry>) {
    && (forall e :: e in dir && e.isFile && e.name != "README.md" ==> ParseName(e.name).Some?)
    && forall e, e' :: e in dir && e' in dir && e != e' ==> DifferentVersions(e, e')
  }

  predicate DifferentVersions(e: DirEntry, e': DirEntry) {
    match (ParseName(e.name), ParseName(e'.name))
    case (Some(f), Some(f')) => e.isFile && e'.isFile ==> f.version != f'.version
    case _ => true
  }

  /** The entries of a directory, each once, in any order. */
  ghost predicate IsListing(entries: seq<DirEntry>, dir: set<DirEntry>) {
    && (forall e :: e in entries <==> e in dir)
    && forall i, j :: 0 <= i < j < |entries| ==> entries[i] != entries[j]
  }

  /** What a result of collecting says about a directory. */
  ghost predicate Describes(r: Result<seq<MigrationFile>, Error>, dir: set<DirEntry>) {
    && (r.Success? <==> Usable(dir))
    && (r.Success? ==> DistinctVersions(r.value) && forall f :: f in r.value <==> Holds(dir, f))
  }

  lemma {:induction false} CollectMeaning(entries: seq<DirEntry>, dir: set<DirEntry>)
    requires IsListing(entries, dir)
    ensures Describes(Collect(entries), dir)
  {
    if entries == [] {
    } else {
      var n := |entries| - 1;
      var e, rest := entries[n], dir - {entries[n]};
      assert entries == entries[..n] + [e];
      CollectMeaning(entries[..n], rest);
      assert dir == rest + {e};
      CollectOne(entries, rest, e);
    }
  }

  lemma CollectOne(entries: seq<DirEntry>, rest: set<DirEntry>, e: DirEntry)
    requires entries != [] && e == entries[|entries| - 1] && e !in rest
    requires Describes(Collect(entries[..|entries| - 1]), rest)
    ensures Describes(Collect(entries), rest + {e})
  {
    UsableStep(rest, e);
    hide ParseName, Ignored, Usable, Holds;
  }

  ghost predicate FreshVersion(rest: set<DirEntry>, e: DirEntry) {
    ParseName(e.name).Some? && forall f :: Holds(rest, f) ==> f.version != ParseName(e.name).value.version
  }

  lemma UsableStep(rest: set<DirEntry>, e: DirEntry)
    requires e !in rest
    ensures Usable(rest + {e}) <==> Usable(rest) && (Ignored(e) || FreshVersion(rest, e))
    ensures forall f :: Holds(rest + {e}, f) <==> Holds(rest, f) || (!Ignored(e) && ParseName(e.name) == Some(f))
  {
    assert ParseName("README.md") == None;
    hide ParseName;
    if Usable(rest + {e}) {
      assert Usable(rest);
      if !Ignored(e) {
        forall f | Holds(rest, f) ensures f.version != ParseName(e.name).value.version {
          var e' :| e' in rest && !Ignored(e') && ParseName(e'.name) == Some(f);
          assert DifferentVersions(e, e');
        }
      }
    } else if Usable(rest) && !Ignored(e) && FreshVersion(rest, e) {
      forall e' | e' in rest && !Ignored(e') ensures DifferentVersions(e, e') && DifferentVersions(e', e) {
        assert Holds(rest, ParseName(e'.name).value);
      }
    }
  }

  /** Discovery succeeds exactly on a usable directory, and then lists every migration once, by version,
      whatever order the directory was listed in. */
  lemma DiscoverMeaning(entries: seq<DirEntry>, dir: set<DirEntry>)
    requires IsListing(entries, dir)
    ensures Discover(entries).Success? <==> Usable(dir)
    ensures Discover(entries).Success? ==>
              Increasing(Discover(entries).value) && forall f :: f in Discover(entries).value <==> Holds(dir, f)
  {
    CollectMeaning(entries, dir);
    if Collect(entries).Success? { Sorted(Collect(entries).value); }
  }

  /** Where a collected file comes from. */
  ghost predicate ParsedAt(entries: seq<DirEntry>, i: nat, f: MigrationFile) {
    i < |entries| && entries[i].isFile && ParseName(entries[i].name) == Some(f)
  }

  /** The entry that makes collecting fail is the first one that is no migration, or repeats a version before it. */
  ghost predicate Blames(entries: seq<DirEntry>, n: nat, e: Error) {
    && n < |entries| && Collect(entries[..n]).Success? && entries[n].isFile
    && match ParseName(entries[n].name)
       case None => entries[n].name != "README.md" && e == BadFileName(entries[n].name)
       case Some(f) =>
         && e == DuplicateVersion(f.version)
         && exists i: nat, g :: i < n && ParsedAt(entries, i, g) && g.version == f.version
  }

  ghost predicate FromEntries(fs: seq<MigrationFile>, entries: seq<DirEntry>) {
    forall f :: f in fs ==> exists i: nat :: ParsedAt(entries, i, f)
  }

  lemma {:induction false} CollectedFrom(entries: seq<DirEntry>)
    requires Collect(entries).Success?
    ensures FromEntries(Collect(entries).value, entries)
  {
    if entries == [] {
    } else {
      var n := |entries| - 1;
      CollectedFrom(entries[..n]);
      var fs := Collect(entries[..n]).value;
      assert FromEntries(fs, entries) by {
        hide ParseName;
        forall f | f in fs ensures exists i: nat :: ParsedAt(entries, i, f) {
          var i: nat :| ParsedAt(entries[..n], i, f);
          assert ParsedAt(entries, i, f);
        }
      }
      if !Ignored(entries[n]) { assert ParsedAt(entries, n, ParseName(entries[n].name).value); }
      hide ParseName, ParsedAt;
    }
  }

  lemma {:induction false} CollectErrors(entries: seq<DirEntry>)
    requires Collect(entries).Failure?
    ensures exists n: nat :: Blames(entries, n, Collect(entries).error)
  {
    var n, e := |entries| - 1, Collect(entries).error;
    hide ParseName;
    if Collect(entries[..n]).Failure? {
      CollectErrors(entries[..n]);
      var m: nat :| Blames(entries[..n], m, e);
      assert entries[..n][..m] == entries[..m];
      if ParseName(entries[m].name).Some? {
        var v := ParseName(entries[m].name).value.version;
        var i: nat, g :| i < m && ParsedAt(entries[..n], i, g) && g.version == v;
        assert ParsedAt(entries, i, g);
      }
      assert Blames(entries, m, e);
    } else {
      CollectedFrom(entries[..n]);
      if ParseName(entries[n].name).Some? {
        var v, fs := ParseName(entries[n].name).value.version, Collect(entries[..n]).value;
        var g :| g in fs && g.version == v;
        var i: nat :| ParsedAt(entries[..n], i, g);
        assert ParsedAt(entries, i, g);
      }
      assert Blames(entries, n, e);
    }
  }

  /** What a failed discovery names. */
  lemma DiscoverErrors(entries: seq<DirEntry>)
    requires Discover(entries).Failure?
    ensures exists n: nat :: Blames(entries, n, Discover(entries).error)
  {
    CollectErrors(entries);
  }

  lemma DiscoverIgnoresOrder(es: seq<DirEntry>, fs: seq<DirEntry>, dir: set<DirEntry>)
    requires IsListing(es, dir) && IsListing(fs, dir)
    ensures Discover(es).Success? <==> Discover(fs).Success?
    ensures Discover(es).Success? ==> Discover(es) == Discover(fs)
  {
    DiscoverMeaning(es, dir);
    DiscoverMeaning(fs, dir);
    if Discover(es).Success? {
      hide Discover, IsListing;
      IncreasingUnique(Discover(es).value, Discover(fs).value);
    }
  }
}
