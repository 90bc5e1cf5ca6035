/** The external-data files a graph names, each with the reference that reaches furthest into it. */
module ExternalData {
  import opened Wrappers
  import N = PackageNames

  const TOKENIZER_FILE: string := "tokenizer.json"
  const MAX_EXTERNAL_FILES: nat := 4096

  datatype Reference = Reference(location: string, needsBytes: nat)

  /** A location that names a file of the package other than its graph and its tokenizer. */
  predicate Admitted(reference: Reference, graph: string) {
    var relpath := N.Relpath(reference.location);
    relpath.Success? && relpath.value != graph && relpath.value != TOKENIZER_FILE
  }

  /** A location that names no file, or one of the two that are no external data. */
  predicate Unusable(reference: Reference, graph: string) {
    var relpath := N.Relpath(reference.location);
    relpath.Failure? || relpath.value in {graph, "tokenizer.json"}
  }

  predicate Names(reference: Reference, relpath: string) {
    N.Relpath(reference.location) == Success(relpath)
  }

  /** The first of the references to a file that none reaches past. */
  ghost predicate Furthest(references: seq<Reference>, relpath: string, i: nat) {
    && i < |references| && Names(references[i], relpath)
    && (forall j :: 0 <= j < |references| && Names(references[j], relpath) ==>
        references[j].needsBytes <= references[i].needsBytes)
    && (forall j :: 0 <= j < i && Names(references[j], relpath) ==> references[j].needsBytes < references[i].needsBytes)
  }

  ghost predicate IsFurthest(references: seq<Reference>, relpath: string, kept: Reference) {
    exists i: nat :: Furthest(references, relpath, i) && references[i] == kept
  }

  ghost predicate Named(references: seq<Reference>, relpath: string) {
    exists i :: 0 <= i < |references| && Names(references[i], relpath)
  }

  ghost predicate Grouped(references: seq<Reference>, needed: map<string, Reference>) {
    && (forall relpath {:trigger relpath in needed} :: relpath in needed <==> Named(references, relpath))
    && (forall relpath :: relpath in needed ==> IsFurthest(references, relpath, needed[relpath]))
  }

  lemma {:induction false} OtherFile(references: seq<Reference>, last: Reference, relpath: string, i: nat)
    requires !Names(last, relpath) && Furthest(references, relpath, i)
    ensures Furthest(references + [last], relpath, i)
  {
    var all := references + [last];
    forall j | 0 <= j < |all| && Names(all[j], relpath) ensures all[j].needsBytes <= all[i].needsBytes {
      assert j < |references| ==> all[j] == references[j];
    }
  }

  lemma {:induction false} SameFile(references: seq<Reference>, last: Reference, relpath: string, i: nat)
    requires Names(last, relpath) && Furthest(references, relpath, i)
    ensures Furthest(
      references + [last], relpath, if last.needsBytes > references[i].needsBytes then |references| else i)
  {
    var all := references + [last];
    forall j | 0 <= j < |references| ensures all[j] == references[j] {
    }
  }

  lemma {:induction false} NewFile(references: seq<Reference>, last: Reference, relpath: string)
    requires Names(last, relpath) && !Named(references, relpath)
    ensures Furthest(references + [last], relpath, |references|)
  {
    var all := references + [last];
    forall j | 0 <= j < |references| ensures all[j] == references[j] && !Names(all[j], relpath) {
    }
  }

  lemma NamedAppends(references: seq<Reference>, last: Reference, relpath: string)
    ensures Named(references + [last], relpath) <==> Named(references, relpath) || Names(last, relpath)
  {
    var all := references + [last];
    if Named(references, relpath) {
      var i :| 0 <= i < |references| && Names(references[i], relpath);
      assert Names(all[i], relpath);
    }
    if Names(last, relpath) { assert Names(all[|references|], relpath); }
  }

  /** What keeping a further reference comes to. */
  function Keep(needed: map<string, Reference>, relpath: string, last: Reference): map<string, Reference> {
    if relpath !in needed || last.needsBytes > needed[relpath].needsBytes then needed[relpath := last] else needed
  }

  lemma {:induction false} KeepsFurthest(references: seq<Reference>, needed: map<string, Reference>,
      last: Reference, name: string, relpath: string)
    requires Grouped(references, needed) && Names(last, name) && relpath in Keep(needed, name, last)
    ensures IsFurthest(references + [last], relpath, Keep(needed, name, last)[relpath])
  {
    var all := references + [last];
    if relpath in needed {
      var i: nat :| Furthest(references, relpath, i) && references[i] == needed[relpath];
      assert all[i] == references[i];
      if relpath == name {
        SameFile(references, last, relpath, i);
      } else {
        OtherFile(references, last, relpath, i);
      }
    } else {
      assert !Named(references, relpath);
      NewFile(references, last, relpath);
    }
  }

  lemma {:induction false} KeepGroups(references: seq<Reference>, needed: map<string, Reference>,
      last: Reference, name: string)
    requires Grouped(references, needed) && Names(last, name)
    ensures Grouped(references + [last], Keep(needed, name, last))
  {
    var kept := Keep(needed, name, last);
    forall relpath {:trigger relpath in kept} ensures relpath in kept <==> Named(references + [last], relpath) {
      NamedAppends(references, last, relpath);
      assert relpath in needed <==> Named(references, relpath);
    }
    forall relpath | relpath in kept ensures IsFurthest(references + [last], relpath, kept[relpath]) {
      KeepsFurthest(references, needed, last, name, relpath);
    }
  }

  /** Keeps one reference, unless its location is not one the package may use. */
  method Place(ghost before: seq<Reference>, needed: map<string, Reference>, reference: Reference, graph: string)
    returns (after: Option<map<string, Reference>>)
    requires Grouped(before, needed)
    ensures after.Some? <==> Admitted(reference, graph)
    ensures after.Some? ==> Grouped(before + [reference], after.value)
  {
    var relpath := N.PackageRelpath(reference.location);
    if relpath.Failure? || relpath.value == graph || relpath.value == TOKENIZER_FILE {
      return None;
    }
    KeepGroups(before, needed, reference, relpath.value);
    return Some(Keep(needed, relpath.value, reference));
  }

  predicate AllAdmitted(references: seq<Reference>, graph: string) {
    forall i :: 0 <= i < |references| ==> Admitted(references[i], graph)
  }

  lemma AdmittedAppends(references: seq<Reference>, i: nat, graph: string)
    requires i < |references|
    ensures references[..i + 1] == references[..i] + [references[i]]
    ensures AllAdmitted(references[..i], graph) && Admitted(references[i], graph) ==>
      AllAdmitted(references[..i + 1], graph)
  {
  }

  /** Refused if any location is not one the package may use; otherwise one reference a file. */
  method Group(references: seq<Reference>, graph: string) returns (needed: Option<map<string, Reference>>)
    ensures needed.Some? <==> AllAdmitted(references, graph)
    ensures needed.Some? ==> Grouped(references, needed.value)
  {
    needed := Some(map[]);
    for i := 0 to |references|
      invariant needed.Some? && AllAdmitted(references[..i], graph) && Grouped(references[..i], needed.value)
    {
      needed := Place(references[..i], needed.value, references[i], graph);
      if needed.None? {
        return;
      }
      AdmittedAppends(references, i, graph);
    }
    assert references[..|references|] == references;
  }

  /** And refused where they are too many. */
  method NeededFiles(references: seq<Reference>, graph: string) returns (needed: Option<map<string, Reference>>)
    ensures needed.Some? ==>
      AllAdmitted(references, graph) && Grouped(references, needed.value) && |needed.value| <= MAX_EXTERNAL_FILES
    ensures needed.None? && AllAdmitted(references, graph) ==>
      exists files :: Grouped(references, files) && |files| > MAX_EXTERNAL_FILES
    ensures needed.Some? ==> graph !in needed.value && "tokenizer.json" !in needed.value && |needed.value| <= 4096
    ensures needed.None? ==>
      || (exists i :: 0 <= i < |references| && Unusable(references[i], graph))
      || (exists files :: Grouped(references, files) && |files| > 4096)
  {
    needed := Group(references, graph);
    forall i | 0 <= i < |references| ensures Admitted(references[i], graph) <==> !Unusable(references[i], graph) {
    }
    if needed.Some? && |needed.value| > MAX_EXTERNAL_FILES {
      return None;
    }
  }

  /** A file long enough for the reference kept is long enough for every one. */
  lemma {:induction false} FurthestCovers(references: seq<Reference>, needed: map<string, Reference>, i: nat,
      relpath: string)
    requires Grouped(references, needed) && i < |references| && Names(references[i], relpath)
    ensures relpath in needed && references[i].needsBytes <= needed[relpath].needsBytes
  {
    assert Named(references, relpath);
  }
}
