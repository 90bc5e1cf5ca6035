/**
 * The canonical manifest of a package, and the names it holds. A name is a string of code points;
 * UTF-8 compares as they do.
 */
module Manifest {
  datatype PackageFile = PackageFile(relpath: string, size: nat, sha256: string)

  const MANIFEST_VERSION: string := "otzaria-onnx-package-v1"

  /** At or before, code point by code point. */
  predicate AtOrBefore(a: string, b: string) {
    a == "" || (b != "" && (a[0] < b[0] || (a[0] == b[0] && AtOrBefore(a[1..], b[1..]))))
  }

  lemma {:induction false} Antisymmetric(a: string, b: string)
    requires AtOrBefore(a, b) && AtOrBefore(b, a)
    ensures a == b
  {
    if a != "" {
      Antisymmetric(a[1..], b[1..]);
      assert a == [a[0]] + a[1..] && b == [b[0]] + b[1..];
    }
  }

  lemma {:induction false} Total(a: string, b: string)
    ensures AtOrBefore(a, b) || AtOrBefore(b, a)
  {
    if a != "" && b != "" { Total(a[1..], b[1..]); }
  }

  lemma {:induction false} Transitive(a: string, b: string, c: string)
    requires AtOrBefore(a, b) && AtOrBefore(b, c)
    ensures AtOrBefore(a, c)
  {
    if a != "" && a[0] == b[0] == c[0] { Transitive(a[1..], b[1..], c[1..]); }
  }

  /** In order, put where it belongs. */
  function Insert(file: PackageFile, files: seq<PackageFile>): (r: seq<PackageFile>)
    ensures multiset(r) == multiset(files) + multiset{file}
  {
    if files == [] then [file]
    else if AtOrBefore(file.relpath, files[0].relpath) then [file] + files
    else
      assert files == [files[0]] + files[1..];
      [files[0]] + Insert(file, files[1..])
  }

  function Sort(files: seq<PackageFile>): (r: seq<PackageFile>)
    ensures multiset(r) == multiset(files)
  {
    if files == [] then []
    else
      assert files == [files[0]] + files[1..];
      Insert(files[0], Sort(files[1..]))
  }

  ghost predicate Sorted(files: seq<PackageFile>) {
    forall i, j :: 0 <= i < j < |files| ==> AtOrBefore(files[i].relpath, files[j].relpath)
  }

  ghost predicate Distinct(files: seq<PackageFile>) {
    forall i, j :: 0 <= i < j < |files| ==> files[i].relpath != files[j].relpath
  }

  lemma {:induction false} InsertSorts(file: PackageFile, files: seq<PackageFile>)
    requires Sorted(files)
    ensures Sorted(Insert(file, files))
  {
    if files != [] {
      var first, rest := files[0], files[1..];
      if AtOrBefore(file.relpath, first.relpath) {
        forall j | 0 <= j < |files| ensures AtOrBefore(file.relpath, files[j].relpath) {
          if j > 0 { Transitive(file.relpath, first.relpath, files[j].relpath); }
        }
      } else {
        Total(file.relpath, first.relpath);
        InsertSorts(file, rest);
        var r := Insert(file, rest);
        forall j | 0 <= j < |r| ensures AtOrBefore(first.relpath, r[j].relpath) {
          assert r[j] in multiset(r);
          assert r[j] == file || r[j] in rest;
        }
      }
    }
  }

  lemma {:induction false} SortSorts(files: seq<PackageFile>)
    ensures Sorted(Sort(files))
  {
    if files != [] {
      SortSorts(files[1..]);
      InsertSorts(files[0], Sort(files[1..]));
    }
  }

  lemma {:induction false} SameFirst(a: seq<PackageFile>, b: seq<PackageFile>)
    requires a != [] && b != [] && Sorted(a) && Sorted(b) && multiset(a) == multiset(b) && Distinct(a)
    ensures a[0] == b[0]
  {
    assert a[0] in multiset(b) && b[0] in multiset(a);
    var i :| 0 <= i < |b| && b[i] == a[0];
    var j :| 0 <= j < |a| && a[j] == b[0];
    if i > 0 && j > 0 {
      Antisymmetric(a[0].relpath, a[j].relpath);
    }
  }

  lemma SameRest(a: seq<PackageFile>, b: seq<PackageFile>)
    requires a != [] && b != [] && multiset(a) == multiset(b) && a[0] == b[0]
    ensures multiset(a[1..]) == multiset(b[1..])
  {
    assert a == [a[0]] + a[1..] && b == [b[0]] + b[1..];
    assert multiset(a[1..]) == multiset(a) - multiset{a[0]};
    assert multiset(b[1..]) == multiset(b) - multiset{b[0]};
  }

  lemma SameLength(a: seq<PackageFile>, b: seq<PackageFile>)
    requires multiset(a) == multiset(b)
    ensures |a| == |b|
  {
    assert |multiset(a)| == |a| && |multiset(b)| == |b|;
  }

  /** The same files in order twice, none of one name: the same list. */
  lemma {:induction false} SortedUnique(a: seq<PackageFile>, b: seq<PackageFile>)
    requires Sorted(a) && Sorted(b) && multiset(a) == multiset(b) && Distinct(a)
    ensures a == b
  {
    SameLength(a, b);
    if a != [] {
      SameFirst(a, b);
      SameRest(a, b);
      SortedUnique(a[1..], b[1..]);
      assert a == [a[0]] + a[1..] && b == [b[0]] + b[1..];
    }
  }

  /** Any two orderings of a package's files, each of its own name, sort alike. */
  lemma {:induction false} SortCanonical(a: seq<PackageFile>, b: seq<PackageFile>)
    requires multiset(a) == multiset(b) && Distinct(a)
    ensures Sort(a) == Sort(b)
  {
    SortSorts(a);
    SortSorts(b);
    DistinctAnyOrder(a, Sort(a));
    SortedUnique(Sort(a), Sort(b));
  }

  lemma {:induction false} DistinctAnyOrder(a: seq<PackageFile>, b: seq<PackageFile>)
    requires multiset(a) == multiset(b) && Distinct(a)
    ensures Distinct(b)
  {
    forall i, j | 0 <= i < j < |b| ensures b[i].relpath != b[j].relpath {
      if b[i].relpath == b[j].relpath { TwiceIn(a, b, i, j); }
    }
  }

  lemma {:induction false} TwiceIn(a: seq<PackageFile>, b: seq<PackageFile>, i: nat, j: nat)
    requires multiset(a) == multiset(b) && Distinct(a) && i < j < |b|
    ensures b[i].relpath != b[j].relpath
  {
    assert b[i] in multiset(a) && b[j] in multiset(a);
    var k :| 0 <= k < |a| && a[k] == b[i];
    var l :| 0 <= l < |a| && a[l] == b[j];
    if k == l {
      Multiplicity(b, i, j);
      AtMostOnce(a, k);
    }
  }

  lemma {:induction false} Multiplicity(b: seq<PackageFile>, i: nat, j: nat)
    requires i < j < |b| && b[i] == b[j]
    ensures multiset(b)[b[i]] >= 2
  {
    assert b == b[..i] + [b[i]] + b[i + 1..j] + [b[j]] + b[j + 1..];
  }

  lemma {:induction false} AtMostOnce(a: seq<PackageFile>, k: nat)
    requires Distinct(a) && k < |a|
    ensures multiset(a)[a[k]] == 1
  {
    assert a == a[..k] + [a[k]] + a[k + 1..];
    assert a[k] !in a[..k] && a[k] !in a[k + 1..];
  }

  function Decimal(n: nat): (digits: string)
    ensures digits != "" && forall i :: 0 <= i < |digits| ==> '0' <= digits[i] <= '9'
  {
    if n < 10 then [Digit(n)] else Decimal(n / 10) + [Digit(n % 10)]
  }

  function Digit(d: nat): (c: char)
    requires d < 10
    ensures '0' <= c <= '9' && c as int == 48 + d
  {
    (48 + d) as char
  }

  function FromDecimal(digits: string): nat {
    if digits == "" then 0 else 10 * FromDecimal(digits[..|digits| - 1]) + DigitValue(digits[|digits| - 1])
  }

  function DigitValue(c: char): nat {
    if '0' <= c <= '9' then c as int - 48 else 0
  }

  lemma {:induction false} DecimalInverts(n: nat)
    ensures FromDecimal(Decimal(n)) == n
  {
    if n >= 10 {
      DecimalInverts(n / 10);
      assert Decimal(n)[..|Decimal(n)| - 1] == Decimal(n / 10);
    } else {
      assert Decimal(n)[..|Decimal(n)| - 1] == "";
    }
  }

  function Line(file: PackageFile): string {
    file.relpath + ("\t" + (Decimal(file.size) + ("\t" + (file.sha256 + "\n"))))
  }

  function Lines(files: seq<PackageFile>): string {
    if files == [] then "" else Line(files[0]) + Lines(files[1..])
  }

  /** The manifest of some files, in any order. */
  function ManifestText(files: seq<PackageFile>): string {
    MANIFEST_VERSION + ("\n" + Lines(Sort(files)))
  }

  /** One manifest for a package, whatever the order its files are found in. */
  lemma {:induction false} ManifestCanonical(a: seq<PackageFile>, b: seq<PackageFile>)
    requires multiset(a) == multiset(b) && Distinct(a)
    ensures ManifestText(a) == ManifestText(b)
  {
    SortCanonical(a, b);
  }

  /** Where a mark first stands, or the length. */
  function Find(s: string, mark: char): (at: nat)
    ensures at <= |s| && mark !in s[..at] && (at < |s| ==> s[at] == mark)
  {
    if s == "" || s[0] == mark then 0
    else
      var at := Find(s[1..], mark);
      assert s[..1 + at] == [s[0]] + s[1..][..at];
      1 + at
  }

  lemma {:induction false} FindsMark(a: string, mark: char, b: string)
    requires mark !in a
    ensures Find(a + ([mark] + b), mark) == |a|
    ensures (a + ([mark] + b))[..|a|] == a && (a + ([mark] + b))[|a| + 1..] == b
  {
    var s := a + ([mark] + b);
    assert s[|a|] == mark;
    var at := Find(s, mark);
    assert s[..|a|] == a;
    Leads(s, |a|);
    Leads(s, at);
  }

  lemma Leads(s: string, k: nat)
    requires k <= |s|
    ensures forall i :: 0 <= i < k ==> s[i] in s[..k]
  {
    forall i | 0 <= i < k ensures s[i] in s[..k] {
      assert s[..k][i] == s[i];
    }
  }

  /** What stands before a mark, and what after it. */
  function Cut(s: string, mark: char): (r: (string, string))
    ensures Find(s, mark) < |s| ==> |r.1| < |s|
  {
    var at := Find(s, mark);
    if at < |s| then (s[..at], s[at + 1..]) else (s, "")
  }

  function ParseLine(line: string): PackageFile {
    var (relpath, rest) := Cut(line, '\t');
    var (size, sha256) := Cut(rest, '\t');
    PackageFile(relpath, FromDecimal(size), sha256)
  }

  function ParseLines(text: string): seq<PackageFile>
    decreases |text|
  {
    if Find(text, '\n') == |text| then []
    else
      var (line, rest) := Cut(text, '\n');
      [ParseLine(line)] + ParseLines(rest)
  }

  function Parse(manifest: string): seq<PackageFile> {
    ParseLines(Cut(manifest, '\n').1)
  }

  /** A name or a digest without the manifest's own marks. */
  predicate Unmarked(s: string) {
    '\t' !in s && '\n' !in s
  }

  predicate Listable(files: seq<PackageFile>) {
    forall i :: 0 <= i < |files| ==> Unmarked(files[i].relpath) && Unmarked(files[i].sha256)
  }

  lemma DecimalUnmarked(n: nat)
    ensures Unmarked(Decimal(n))
  {
  }

  lemma {:induction false} LineParses(file: PackageFile, rest: string)
    requires Unmarked(file.relpath) && Unmarked(file.sha256)
    ensures Cut(Line(file) + rest, '\n').1 == rest && Find(Line(file) + rest, '\n') < |Line(file) + rest|
    ensures ParseLine(Cut(Line(file) + rest, '\n').0) == file
  {
    DecimalUnmarked(file.size);
    DecimalInverts(file.size);
    var size := Decimal(file.size);
    var body := file.relpath + (['\t'] + (size + (['\t'] + file.sha256)));
    assert Line(file) + rest == body + (['\n'] + rest);
    assert '\n' !in body;
    FindsMark(body, '\n', rest);
    FindsMark(file.relpath, '\t', size + (['\t'] + file.sha256));
    FindsMark(size, '\t', file.sha256);
  }

  lemma {:induction false} LinesParse(files: seq<PackageFile>)
    requires Listable(files)
    ensures ParseLines(Lines(files)) == files
  {
    if files == [] {
      assert Find("", '\n') == 0;
    } else {
      LineParses(files[0], Lines(files[1..]));
      LinesParse(files[1..]);
    }
  }

  lemma {:induction false} SortListable(files: seq<PackageFile>)
    requires Listable(files)
    ensures Listable(Sort(files))
  {
    var sorted := Sort(files);
    forall i | 0 <= i < |sorted| ensures Unmarked(sorted[i].relpath) && Unmarked(sorted[i].sha256) {
      assert sorted[i] in multiset(files);
    }
  }

  /** A manifest parses back to the package's files, in order. */
  lemma {:induction false} ManifestParses(files: seq<PackageFile>)
    requires Listable(files)
    ensures Parse(ManifestText(files)) == Sort(files)
  {
    SortListable(files);
    LinesParse(Sort(files));
    assert '\n' !in MANIFEST_VERSION;
    FindsMark(MANIFEST_VERSION, '\n', Lines(Sort(files)));
  }

  /** Packages of different files have different manifests. */
  lemma {:induction false} ManifestInjective(a: seq<PackageFile>, b: seq<PackageFile>)
    requires Listable(a) && Listable(b) && ManifestText(a) == ManifestText(b)
    ensures multiset(a) == multiset(b)
  {
    ManifestParses(a);
    ManifestParses(b);
    assert multiset(a) == multiset(Sort(a)) && multiset(b) == multiset(Sort(b));
  }

  /** Where two names first differ; nowhere, if one begins with the other. */
  predicate DiffersAt(a: string, b: string, k: nat) {
    k < |a| && k < |b| && a[..k] == b[..k] && a[k] != b[k]
  }

  /** The order of names: by the first character that differs, and the shorter first. */
  lemma {:induction false} OrderMeans(a: string, b: string)
    ensures AtOrBefore(a, b) <==>
      (|a| <= |b| && a == b[..|a|]) || exists k: nat :: DiffersAt(a, b, k) && a[k] < b[k]
  {
    if a != "" && b != "" {
      if a[0] == b[0] {
        OrderMeans(a[1..], b[1..]);
        assert a == [a[0]] + a[1..] && b == [b[0]] + b[1..];
        DiffersLater(a, b);
      } else {
        assert DiffersAt(a, b, 0);
        forall k: nat | DiffersAt(a, b, k) ensures k == 0 {
          FirstDiffers(a, b, k);
        }
      }
    }
  }

  lemma FirstDiffers(a: string, b: string, k: nat)
    requires DiffersAt(a, b, k)
    ensures a[0] != b[0] ==> k == 0
  {
    if k > 0 { assert a[..k][0] == a[0] && b[..k][0] == b[0]; }
  }

  lemma DiffersLater(a: string, b: string)
    requires a != "" && b != "" && a[0] == b[0]
    ensures (exists k: nat :: DiffersAt(a, b, k) && a[k] < b[k]) <==>
      (exists k: nat :: DiffersAt(a[1..], b[1..], k) && a[1..][k] < b[1..][k])
  {
    if k: nat :| DiffersAt(a, b, k) && a[k] < b[k] {
      assert a[1..][..k - 1] == a[..k][1..] && b[1..][..k - 1] == b[..k][1..];
      assert DiffersAt(a[1..], b[1..], k - 1);
    }
    if k: nat :| DiffersAt(a[1..], b[1..], k) && a[1..][k] < b[1..][k] {
      assert a[..k + 1] == [a[0]] + a[1..][..k] && b[..k + 1] == [b[0]] + b[1..][..k];
      assert DiffersAt(a, b, k + 1);
    }
  }

  const SMALL: PackageFile := PackageFile("a", 2, "x")
  const LARGE: PackageFile := PackageFile("b", 30, "y")

  lemma SmallSorted()
    ensures Sort([LARGE, SMALL]) == [SMALL, LARGE]
  {
    assert [LARGE, SMALL][1..] == [SMALL] && [SMALL][1..] == [];
    assert Sort([SMALL]) == Insert(SMALL, []) == [SMALL];
    assert Insert(LARGE, [SMALL]) == [SMALL] + Insert(LARGE, []);
  }

  lemma SmallLines()
    ensures Line(SMALL) == "a\t2\tx\n" && Line(LARGE) == "b\t30\ty\n"
  {
    assert Decimal(2) == "2" && Decimal(3) == "3" && Decimal(30) == Decimal(3) + "0";
  }

  /** A manifest of two files, written out: a heading, and a line each, by name. */
  lemma {:induction false} SmallManifest()
    ensures ManifestText([PackageFile("b", 30, "y"), PackageFile("a", 2, "x")]) ==
      "otzaria-onnx-package-v1" + ("\n" + ("a\t2\tx\n" + "b\t30\ty\n"))
  {
    SmallSorted();
    SmallLines();
    assert [SMALL, LARGE][1..] == [LARGE] && [LARGE][1..] == [];
    assert Lines([LARGE]) == Line(LARGE) + "";
  }
}
