/** The names a manifest admits, and the form an external-data location takes in one. */
module PackageNames {
  import opened Wrappers
  import M = Manifest

  datatype Refusal =
    | EmptyLocation | ControlCharacter | Backslash | ReservedCharacter
    | Absolute | TrailingSlash | ParentComponent | NoFileName

  const RESERVED: string := ":<>\"|?*"

  /** Unicode category Cc. */
  predicate Control(c: char) {
    c as int < 0x20 || 0x7F <= c as int <= 0x9F
  }

  function UnsafeInManifest(relpath: string): Option<Refusal> {
    if exists i :: 0 <= i < |relpath| && Control(relpath[i]) then Some(ControlCharacter)
    else if '\\' in relpath then Some(Backslash)
    else if exists i :: 0 <= i < |relpath| && relpath[i] in RESERVED then Some(ReservedCharacter)
    else None
  }

  predicate SafeChar(c: char) {
    !Control(c) && c != '\\' && c !in RESERVED
  }

  /** Safe exactly when every character is. */
  lemma SafeIsEvery(s: string)
    ensures UnsafeInManifest(s).None? <==> forall i :: 0 <= i < |s| ==> SafeChar(s[i])
  {
  }

  /** An admitted name cannot be taken for two fields or two lines of a manifest. */
  lemma SafeIsUnmarked(s: string)
    requires UnsafeInManifest(s).None?
    ensures M.Unmarked(s)
  {
    SafeIsEvery(s);
    assert Control('\t') && Control('\n');
  }

  function Split(s: string): (parts: seq<string>)
    ensures |parts| >= 1
  {
    if s == "" then [""]
    else
      var rest := Split(s[1..]);
      if s[0] == '/' then [""] + rest else [[s[0]] + rest[0]] + rest[1..]
  }

  function Join(parts: seq<string>): string
    requires |parts| >= 1
  {
    if |parts| == 1 then parts[0] else parts[0] + ("/" + Join(parts[1..]))
  }

  predicate Whole(part: string) {
    '/' !in part
  }

  lemma {:induction false} SplitIsWhole(s: string)
    ensures forall i :: 0 <= i < |Split(s)| ==> Whole(Split(s)[i])
  {
    if s != "" { SplitIsWhole(s[1..]); }
  }

  lemma {:induction false} JoinSplits(s: string)
    ensures Join(Split(s)) == s
  {
    if s != "" {
      JoinSplits(s[1..]);
      var rest := Split(s[1..]);
      if s[0] == '/' {
        assert ([""] + rest)[1..] == rest;
      } else {
        assert ([[s[0]] + rest[0]] + rest[1..])[1..] == rest[1..];
        JoinTakesFirst([s[0]], rest);
      }
      assert s == [s[0]] + s[1..];
    }
  }

  lemma JoinTakesFirst(front: string, parts: seq<string>)
    requires |parts| >= 1
    ensures Join([front + parts[0]] + parts[1..]) == front + Join(parts)
  {
    var all := [front + parts[0]] + parts[1..];
    if |parts| > 1 {
      assert all[1..] == parts[1..];
      assert (front + parts[0]) + ("/" + Join(parts[1..])) == front + (parts[0] + ("/" + Join(parts[1..])));
    }
  }

  lemma {:induction false} SplitWhole(part: string)
    requires Whole(part)
    ensures Split(part) == [part]
  {
    if part != "" {
      SplitWhole(part[1..]);
      assert part == [part[0]] + part[1..];
    }
  }

  lemma {:induction false} SplitAfter(part: string, rest: string)
    requires Whole(part)
    ensures Split(part + ("/" + rest)) == [part] + Split(rest)
  {
    var s := part + ("/" + rest);
    if part == "" {
      assert s == "/" + rest && s[1..] == rest;
    } else {
      SplitAfter(part[1..], rest);
      assert s[1..] == part[1..] + ("/" + rest);
      assert part == [part[0]] + part[1..];
    }
  }

  /** Components without a separator come apart as they were joined. */
  lemma {:induction false} SplitJoins(parts: seq<string>)
    requires |parts| >= 1 && forall i :: 0 <= i < |parts| ==> Whole(parts[i])
    ensures Split(Join(parts)) == parts
    decreases |parts|
  {
    if |parts| == 1 {
      SplitWhole(parts[0]);
    } else {
      SplitAfter(parts[0], Join(parts[1..]));
      SplitJoins(parts[1..]);
      assert parts == [parts[0]] + parts[1..];
    }
  }

  predicate Dropped(part: string) {
    part == "" || part == "."
  }

  /** The components that stay: all but the empty ones and ".". */
  function Kept(parts: seq<string>): seq<string> {
    if parts == [] then []
    else
      var before := Kept(parts[..|parts| - 1]);
      var last := parts[|parts| - 1];
      if Dropped(last) then before else before + [last]
  }

  /** The package-relative form of a location. */
  function Relpath(location: string): Result<string, Refusal> {
    if location == "" then Failure(EmptyLocation)
    else if UnsafeInManifest(location).Some? then Failure(UnsafeInManifest(location).value)
    else if location[0] == '/' then Failure(Absolute)
    else if location[|location| - 1] == '/' then Failure(TrailingSlash)
    else if ".." in Split(location) then Failure(ParentComponent)
    else if Kept(Split(location)) == [] then Failure(NoFileName)
    else Success(Join(Kept(Split(location))))
  }

  /** The components that stay, unless one of them is "..". */
  method Components(parts: seq<string>) returns (components: Option<seq<string>>)
    ensures components == if ".." in parts then None else Some(Kept(parts))
  {
    var kept: seq<string> := [];
    for i := 0 to |parts|
      invariant kept == Kept(parts[..i]) && ".." !in parts[..i]
    {
      assert parts[..i + 1][..i] == parts[..i];
      if Dropped(parts[i]) {
        continue;
      }
      if parts[i] == ".." {
        return None;
      }
      kept := kept + [parts[i]];
    }
    assert parts[..|parts|] == parts;
    return Some(kept);
  }

  method PackageRelpath(location: string) returns (r: Result<string, Refusal>)
    ensures r == Relpath(location)
  {
    if location == "" {
      return Failure(EmptyLocation);
    }
    var reason := UnsafeInManifest(location);
    if reason.Some? {
      return Failure(reason.value);
    }
    if location[0] == '/' {
      return Failure(Absolute);
    }
    if location[|location| - 1] == '/' {
      return Failure(TrailingSlash);
    }
    var components := Components(Split(location));
    if components.None? {
      return Failure(ParentComponent);
    }
    if components.value == [] {
      return Failure(NoFileName);
    }
    return Success(Join(components.value));
  }

  lemma {:induction false} KeptIsOf(parts: seq<string>)
    ensures forall i :: 0 <= i < |Kept(parts)| ==> Kept(parts)[i] in parts && !Dropped(Kept(parts)[i])
  {
    if parts != [] { KeptIsOf(parts[..|parts| - 1]); }
  }

  lemma {:induction false} KeptAll(parts: seq<string>)
    requires forall i :: 0 <= i < |parts| ==> !Dropped(parts[i])
    ensures Kept(parts) == parts
  {
    if parts != [] {
      KeptAll(parts[..|parts| - 1]);
      assert parts == parts[..|parts| - 1] + [parts[|parts| - 1]];
    }
  }

  /** A component a relative path may have. */
  predicate Proper(part: string) {
    part != "" && part != "." && part != ".." && Whole(part)
  }

  /** No component of the form is empty, "." or "..". */
  lemma {:induction false} RelpathIsProper(location: string)
    requires Relpath(location).Success?
    ensures var parts := Split(Relpath(location).value);
      parts == Kept(Split(location)) && forall i :: 0 <= i < |parts| ==> Proper(parts[i])
  {
    var kept := Kept(Split(location));
    KeptIsOf(Split(location));
    SplitIsWhole(location);
    SplitJoins(kept);
  }

  predicate AllSafe(s: string) {
    forall i :: 0 <= i < |s| ==> SafeChar(s[i])
  }

  lemma {:induction false} PartsSafe(s: string)
    requires AllSafe(s)
    ensures forall i :: 0 <= i < |Split(s)| ==> AllSafe(Split(s)[i])
  {
    if s != "" { PartsSafe(s[1..]); }
  }

  /** Joining proper components neither adds a character that is not safe nor an outer separator. */
  lemma {:induction false} JoinIsSafe(parts: seq<string>)
    requires |parts| >= 1 && forall i :: 0 <= i < |parts| ==> parts[i] != "" && Whole(parts[i]) && AllSafe(parts[i])
    ensures var s := Join(parts); s != "" && AllSafe(s) && s[0] != '/' && s[|s| - 1] != '/'
    decreases |parts|
  {
    assert SafeChar('/');
    if |parts| > 1 {
      var rest := Join(parts[1..]);
      JoinIsSafe(parts[1..]);
      var s := parts[0] + ("/" + rest);
      assert s[|s| - 1] == rest[|rest| - 1];
    }
  }

  /** Taking the form of a form gives it back. */
  lemma {:induction false} RelpathIdempotent(location: string)
    requires Relpath(location).Success?
    ensures Relpath(Relpath(location).value) == Relpath(location)
  {
    var r := Relpath(location).value;
    var kept := Kept(Split(location));
    RelpathIsProper(location);
    KeptIsOf(Split(location));
    SafeIsEvery(location);
    PartsSafe(location);
    forall i | 0 <= i < |kept| ensures AllSafe(kept[i]) {
      assert kept[i] in Split(location);
    }
    JoinIsSafe(kept);
    SafeIsEvery(r);
    KeptAll(kept);
    assert ".." !in kept;
  }

  /** The form is itself a name a manifest admits. */
  lemma {:induction false} RelpathIsUnmarked(location: string)
    requires Relpath(location).Success?
    ensures UnsafeInManifest(Relpath(location).value).None? && M.Unmarked(Relpath(location).value)
  {
    RelpathIdempotent(location);
    SafeIsUnmarked(Relpath(location).value);
  }

  /** Locations name one file exactly when they differ in components that are dropped. */
  lemma {:induction false} SameFile(a: string, b: string)
    requires Relpath(a).Success? && Relpath(b).Success?
    ensures Relpath(a) == Relpath(b) <==> Kept(Split(a)) == Kept(Split(b))
  {
    RelpathIsProper(a);
    RelpathIsProper(b);
  }

  /** A character no location may have: a control character, or one of `"*:<>?\|`. */
  predicate Forbidden(c: char) {
    c as int < 0x20 || 0x7F <= c as int < 0xA0 || c as int in {0x22, 0x2A, 0x3A, 0x3C, 0x3E, 0x3F, 0x5C, 0x7C}
  }

  /** A location is refused exactly for what it spells. */
  lemma {:induction false} RefusedExactly(location: string)
    ensures Relpath(location).Failure? <==>
      || location == ""
      || (exists i :: 0 <= i < |location| && Forbidden(location[i]))
      || location[0] == '/' || location[|location| - 1] == '/'
      || ".." in Split(location)
      || (forall part <- Split(location) :: part in {"", "."})
  {
    SafeIsEvery(location);
    ForbiddenIsUnsafe();
    NoneKept(Split(location));
  }

  lemma ForbiddenIsUnsafe()
    ensures forall c: char :: Forbidden(c) <==> !SafeChar(c)
  {
    forall c: char ensures c in RESERVED <==> c as int in {0x22, 0x2A, 0x3A, 0x3C, 0x3E, 0x3F, 0x7C} {
      assert RESERVED[0] == ':' && RESERVED[1] == '<' && RESERVED[2] == '>' && RESERVED[3] == '"';
      assert RESERVED[4] == '|' && RESERVED[5] == '?' && RESERVED[6] == '*' && |RESERVED| == 7;
    }
  }

  lemma {:induction false} NoneKept(parts: seq<string>)
    ensures Kept(parts) == [] <==> forall part <- parts :: part in {"", "."}
  {
    if parts != [] {
      var before, last := parts[..|parts| - 1], parts[|parts| - 1];
      assert parts == before + [last];
      NoneKept(before);
      assert forall part :: part in parts <==> part in before || part == last;
      assert last in parts;
    }
  }

  lemma SmallSplit()
    ensures Split("./a//b") == [".", "a", "", "b"]
  {
    SplitWhole("b");
    SplitAfter("", "b");
    SplitAfter("a", "/b");
    SplitAfter(".", "a//b");
    assert "" + ("/" + "b") == "/b" && "a" + ("/" + "/b") == "a//b" && "." + ("/" + "a//b") == "./a//b";
  }

  lemma SmallKept()
    ensures Kept([".", "a", "", "b"]) == ["a", "b"] && Join(["a", "b"]) == "a/b"
  {
    var parts := [".", "a", "", "b"];
    assert parts[..3] == [".", "a", ""] && [".", "a", ""][..2] == [".", "a"] && [".", "a"][..1] == ["."];
    assert ["."][..0] == [] && Kept([]) == [];
    assert Kept(["."]) == [] && Kept([".", "a"]) == ["a"] && Kept([".", "a", ""]) == ["a"];
    assert ["a", "b"][1..] == ["b"];
  }

  /** A location taken to its form. */
  lemma {:induction false} SmallRelpath()
    ensures Relpath("./a//b") == Success("a/b")
  {
    SmallSplit();
    SmallKept();
    SafeIsEvery("./a//b");
  }
}
