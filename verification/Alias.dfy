/**
 * Short lines that share a neighbour's vector: which records of a plan are aliases, and of
 * what. The decision asks for the cosine of two texts' vectors, absent where the warehouse
 * lacks one; how two vectors are compared is a parameter.
 */
module Alias {
  import opened Wrappers
  import opened Sorting
  import opened Plan

  type Cosine = (Digest, Digest) -> Option<real>

  type Vector = seq<real>

  /** The vectors embedded so far, by text. */
  datatype Warehouse = Warehouse(vectors: map<Digest, Vector>, similarity: (Vector, Vector) -> Option<real>) {
    /** The cosine of two texts, where both are held. */
    function Score(): Cosine {
      (one: Digest, other: Digest) =>
        if one in vectors && other in vectors then similarity(vectors[one], vectors[other]) else None
    }
  }

  datatype Target = Target(key: Key, score: real)

  datatype AliasError = ThresholdOutOfRange

  /** The neighbours a short line may share, in the order they are tried. */
  const NEIGHBOURS: seq<int> := [-1, 1, -2, 2]

  /** A plan and what its aliases are decided on: the cosine, and the least that is enough. */
  datatype Question = Question(plan: PlanRecords, cosine: Cosine, threshold: real) {
    ghost predicate Valid() {
      plan.Valid()
    }

    ghost predicate FirstWindow(j: nat, book: nat, ordinal: int) {
      && j < |plan.records| && plan.records[j].window == 0
      && plan.records[j].book == book && plan.records[j].ordinal == ordinal
    }

    /** The first window of line (book, ordinal), if the plan has one. */
    ghost function Line(book: nat, ordinal: int): Option<nat> {
      if exists j: nat :: FirstWindow(j, book, ordinal) then
        var j: nat :| FirstWindow(j, book, ordinal);
        Some(j)
      else None
    }

    /** The score of record `i` with the line `offset` away, where that is a candidate. */
    ghost function Candidate(i: nat, offset: int): Option<Target>
      requires i < |plan.records|
    {
      var r := plan.records[i];
      var at := Line(r.book, r.ordinal + offset);
      if at.None? || at.value >= |plan.records| || plan.records[at.value].short then None
      else Scored(r, plan.records[at.value])
    }

    function Scored(r: PlanRecord, neighbour: PlanRecord): Option<Target> {
      match cosine(r.sha256, neighbour.sha256)
      case None => None
      case Some(score) => if score >= threshold then Some(Target(neighbour.Key(), score)) else None
    }

    ghost function Candidates(i: nat): seq<Option<Target>>
      requires i < |plan.records|
    {
      seq(|NEIGHBOURS|, k requires 0 <= k < |NEIGHBOURS| => Candidate(i, NEIGHBOURS[k]))
    }

    /** What record `i` may share, if anything. */
    ghost function Choice(i: nat): Option<Target>
      requires i < |plan.records|
    {
      Best(Candidates(i))
    }

    /** Whether record `i` may share line `j`: at most two lines away in its book, not short, and near enough. */
    ghost predicate Qualifies(i: nat, j: nat)
      requires i < |plan.records|
    {
      && j < |plan.records| && plan.records[j].window == 0 && !plan.records[j].short
      && plan.records[j].book == plan.records[i].book && Distance(i, j) in {1, 2}
      && cosine(plan.records[i].sha256, plan.records[j].sha256).Some?
      && ScoreOf(i, j) >= threshold
    }

    function Distance(i: nat, j: nat): nat
      requires i < |plan.records| && j < |plan.records|
    {
      var one, other := plan.records[i].ordinal, plan.records[j].ordinal;
      if one < other then other - one else one - other
    }

    function ScoreOf(i: nat, j: nat): real
      requires i < |plan.records| && j < |plan.records|
    {
      var score := cosine(plan.records[i].sha256, plan.records[j].sha256);
      if score.Some? then score.value else 0.0
    }

    /** The higher score is preferred; of equal ones the nearer line; of equally near ones the earlier. */
    predicate Preferred(i: nat, j: nat, other: nat)
      requires i < |plan.records| && j < |plan.records| && other < |plan.records|
    {
      || ScoreOf(i, j) > ScoreOf(i, other)
      || (&& ScoreOf(i, j) == ScoreOf(i, other)
          && (|| Distance(i, j) < Distance(i, other)
              || (Distance(i, j) == Distance(i, other) && plan.records[j].ordinal < plan.records[other].ordinal)))
    }

    /** Line `j` is what record `i` shares, of all it may. */
    ghost predicate Preferable(i: nat, j: nat)
      requires i < |plan.records|
    {
      Qualifies(i, j) && forall other: nat :: Qualifies(i, other) && other != j ==> Preferred(i, j, other)
    }

    /** A short record with a line it may share. */
    ghost predicate Shares(i: nat)
      requires i < |plan.records|
    {
      plan.records[i].short && exists j: nat :: Qualifies(i, j)
    }

    /** Whether every record of a key may share a line. */
    ghost predicate AllShare(key: Key) {
      forall i: nat :: i < |plan.records| && plan.records[i].Key() == key ==> Shares(i)
    }

    ghost predicate Names(i: nat, target: Target)
      requires i < |plan.records|
    {
      exists j: nat :: Preferable(i, j) && target == Target(plan.records[j].Key(), ScoreOf(i, j))
    }

    /** Whether record `i` is a short line that found a target. */
    ghost predicate Found(i: nat)
      requires i < |plan.records|
    {
      plan.records[i].short && Choice(i).Some?
    }

    /** Whether every one of the first `n` records of `key` found a target. */
    ghost predicate Whole(n: nat, key: Key)
      requires n <= |plan.records|
    {
      n == 0 || (Whole(n - 1, key) && (plan.records[n - 1].Key() == key ==> Found(n - 1)))
    }

    ghost predicate Aliased(i: nat)
      requires i < |plan.records|
    {
      Found(i) && Whole(|plan.records|, plan.records[i].Key())
    }
  }

  function Better(best: Option<Target>, candidate: Option<Target>): Option<Target> {
    if candidate.Some? && (best.None? || candidate.value.score > best.value.score) then candidate else best
  }

  /** The best of the candidates in the order they are tried: a later one must be better. */
  function Best(candidates: seq<Option<Target>>): Option<Target> {
    if candidates == [] then None
    else Better(Best(candidates[..|candidates| - 1]), candidates[|candidates| - 1])
  }

  /** Which records are aliases, by index, and of what; and how many distinct keys are. */
  datatype Aliases = Aliases(targets: map<nat, Target>, keys: nat)

  ghost predicate Decides(q: Question, aliases: Aliases) {
    && (forall i: nat :: i in aliases.targets <==> i < |q.plan.records| && q.Aliased(i))
    && (forall i :: i in aliases.targets ==> Some(aliases.targets[i]) == q.Choice(i))
    && aliases.keys == |set i | 0 <= i < |q.plan.records| && q.Aliased(i) :: q.plan.records[i].Key()|
  }

  lemma {:induction false} WholeMeans(q: Question, n: nat, key: Key)
    requires n <= |q.plan.records|
    ensures q.Whole(n, key) <==> forall i :: 0 <= i < n && q.plan.records[i].Key() == key ==> q.Found(i)
  {
    if n > 0 { WholeMeans(q, n - 1, key); }
  }

  /** A line has one first window. */
  lemma LineUnique(q: Question, j: nat, book: nat, ordinal: int)
    requires q.Valid() && q.FirstWindow(j, book, ordinal)
    ensures q.Line(book, ordinal) == Some(j)
  {
    var k := q.Line(book, ordinal).value;
    assert !q.plan.records[j].Before(q.plan.records[k]) && !q.plan.records[k].Before(q.plan.records[j]);
  }

  /** No candidate scores more than the `m`-th, and every one before it scores less. */
  ghost predicate FirstGreatest(candidates: seq<Option<Target>>, m: nat) {
    && m < |candidates| && candidates[m].Some?
    && forall o :: 0 <= o < |candidates| && candidates[o].Some? ==>
        && candidates[o].value.score <= candidates[m].value.score
        && (o < m ==> candidates[o].value.score < candidates[m].value.score)
  }

  /** The target chosen is the first of the greatest: ties go to the line tried first. */
  lemma {:induction false} BestIsFirstGreatest(candidates: seq<Option<Target>>)
    ensures Best(candidates).None? <==> forall o :: 0 <= o < |candidates| ==> candidates[o].None?
    ensures Best(candidates).Some? ==>
      exists m: nat :: FirstGreatest(candidates, m) && candidates[m] == Best(candidates)
  {
    if candidates != [] {
      var k := |candidates| - 1;
      var before := candidates[..k];
      assert candidates == before + [candidates[k]];
      BestIsFirstGreatest(before);
      if Best(before).Some? {
        var m: nat :| FirstGreatest(before, m) && before[m] == Best(before);
        FirstGreatestAppend(before, m, candidates[k]);
      } else if candidates[k].Some? {
        assert FirstGreatest(candidates, k);
      }
    }
  }

  lemma FirstGreatestAppend(before: seq<Option<Target>>, m: nat, candidate: Option<Target>)
    requires FirstGreatest(before, m)
    ensures FirstGreatest(before + [candidate], if Better(before[m], candidate) == before[m] then m else |before|)
  {
  }

  /** A line that may be shared is a candidate, where it stands among the neighbours. */
  lemma {:induction false} QualifiesIsCandidate(q: Question, i: nat, j: nat) returns (k: nat)
    requires q.Valid() && i < |q.plan.records| && q.Qualifies(i, j)
    ensures k < 4 && NEIGHBOURS[k] == q.plan.records[j].ordinal - q.plan.records[i].ordinal
    ensures q.Candidates(i)[k] == Some(Target(q.plan.records[j].Key(), q.ScoreOf(i, j)))
  {
    var offset := q.plan.records[j].ordinal - q.plan.records[i].ordinal;
    k := if offset == -1 then 0 else if offset == 1 then 1 else if offset == -2 then 2 else 3;
    LineUnique(q, j, q.plan.records[i].book, q.plan.records[i].ordinal + offset);
  }

  lemma {:induction false} CandidateQualifies(q: Question, i: nat, k: nat) returns (j: nat)
    requires q.Valid() && i < |q.plan.records| && k < 4 && q.Candidates(i)[k].Some?
    ensures q.Qualifies(i, j) && NEIGHBOURS[k] == q.plan.records[j].ordinal - q.plan.records[i].ordinal
    ensures q.Candidates(i)[k] == Some(Target(q.plan.records[j].Key(), q.ScoreOf(i, j)))
  {
    j := q.Line(q.plan.records[i].book, q.plan.records[i].ordinal + NEIGHBOURS[k]).value;
  }

  /** Two lines of a book differ in their ordinals. */
  lemma LinesApart(q: Question, j: nat, other: nat)
    requires q.Valid() && j < |q.plan.records| && other < |q.plan.records| && j != other
    requires q.plan.records[j].window == q.plan.records[other].window == 0
    requires q.plan.records[j].book == q.plan.records[other].book
    ensures q.plan.records[j].ordinal != q.plan.records[other].ordinal
  {
    assert q.plan.records[j].Before(q.plan.records[other]) || q.plan.records[other].Before(q.plan.records[j]);
  }

  /** A line tried no later than another, and scoring no less, is preferred to it. */
  lemma {:induction false} EarlierPreferred(q: Question, i: nat, j: nat, other: nat, k: nat, o: nat)
    requires q.Valid() && i < |q.plan.records| && q.Qualifies(i, j) && q.Qualifies(i, other) && j != other
    requires k < 4 && NEIGHBOURS[k] == q.plan.records[j].ordinal - q.plan.records[i].ordinal
    requires o < 4 && NEIGHBOURS[o] == q.plan.records[other].ordinal - q.plan.records[i].ordinal
    requires q.ScoreOf(i, other) <= q.ScoreOf(i, j) && (o < k ==> q.ScoreOf(i, other) < q.ScoreOf(i, j))
    ensures q.Preferred(i, j, other)
  {
    LinesApart(q, j, other);
  }

  /** What a short record is given: the line preferred of all it may share, if there is one. */
  lemma {:induction false} ChoiceIsPreferable(q: Question, i: nat)
    requires q.Valid() && i < |q.plan.records|
    ensures q.Choice(i).Some? <==> exists j: nat :: q.Qualifies(i, j)
    ensures q.Choice(i).Some? ==> q.Names(i, q.Choice(i).value)
  {
    var candidates := q.Candidates(i);
    BestIsFirstGreatest(candidates);
    if q.Choice(i).Some? {
      var k: nat :| FirstGreatest(candidates, k) && candidates[k] == Best(candidates);
      var j := CandidateQualifies(q, i, k);
      ChosenIsPreferable(q, i, j, k);
    } else if j: nat :| q.Qualifies(i, j) {
      var k := QualifiesIsCandidate(q, i, j);
    }
  }

  lemma {:induction false} ChosenIsPreferable(q: Question, i: nat, j: nat, k: nat)
    requires q.Valid() && i < |q.plan.records| && q.Qualifies(i, j) && FirstGreatest(q.Candidates(i), k)
    requires k < 4 && NEIGHBOURS[k] == q.plan.records[j].ordinal - q.plan.records[i].ordinal
    requires q.Candidates(i)[k] == Some(Target(q.plan.records[j].Key(), q.ScoreOf(i, j)))
    ensures q.Preferable(i, j)
  {
    forall other: nat | q.Qualifies(i, other) && other != j ensures q.Preferred(i, j, other) {
      var o := QualifiesIsCandidate(q, i, other);
      EarlierPreferred(q, i, j, other, k, o);
    }
  }

  /** A decision told by the lines themselves. */
  ghost predicate Shared(q: Question, targets: map<nat, Target>) {
    && (forall i: nat :: i in targets <==> i < |q.plan.records| && q.AllShare(q.plan.records[i].Key()))
    && (forall i: nat :: i in targets ==> i < |q.plan.records| && q.Names(i, targets[i]))
  }

  lemma {:induction false} FoundShares(q: Question, i: nat)
    requires q.Valid() && i < |q.plan.records|
    ensures q.Found(i) <==> q.Shares(i)
  {
    ChoiceIsPreferable(q, i);
  }

  lemma {:induction false} AliasedShares(q: Question, i: nat)
    requires q.Valid() && i < |q.plan.records|
    ensures q.Aliased(i) <==> q.AllShare(q.plan.records[i].Key())
  {
    WholeMeans(q, |q.plan.records|, q.plan.records[i].Key());
    forall other: nat | other < |q.plan.records| ensures q.Found(other) <==> q.Shares(other) {
      FoundShares(q, other);
    }
  }

  lemma {:induction false} DecidesShared(q: Question, aliases: Aliases)
    requires q.Valid() && Decides(q, aliases)
    ensures Shared(q, aliases.targets)
  {
    forall i: nat | i < |q.plan.records| ensures q.Aliased(i) <==> q.AllShare(q.plan.records[i].Key()) {
      AliasedShares(q, i);
    }
    forall i: nat | i in aliases.targets ensures q.Names(i, aliases.targets[i]) {
      ChoiceIsPreferable(q, i);
    }
  }

  /** The records of one book, as they are buffered: `lo` up to `hi`, and no others. */
  ghost predicate IsBook(plan: PlanRecords, lo: nat, hi: nat) {
    && lo < hi <= |plan.records|
    && forall j :: 0 <= j < |plan.records| ==> (plan.records[j].book == plan.records[lo].book <==> lo <= j < hi)
  }

  /** The book's first windows, and their ordinals: what a neighbour is searched in. */
  ghost predicate AreFirst(plan: PlanRecords, lo: nat, hi: nat, first: seq<nat>, ordinals: seq<nat>) {
    && |first| == |ordinals| && hi <= |plan.records|
    && (forall a :: 0 <= a < |first| ==>
        lo <= first[a] < hi && plan.records[first[a]].window == 0 && plan.records[first[a]].ordinal == ordinals[a])
    && (forall j :: lo <= j < hi && plan.records[j].window == 0 ==> j in first)
    && Ascending(ordinals)
  }

  method FirstWindows(plan: PlanRecords, lo: nat, hi: nat) returns (first: seq<nat>, ordinals: seq<nat>)
    requires plan.Valid() && IsBook(plan, lo, hi)
    ensures AreFirst(plan, lo, hi, first, ordinals)
  {
    first, ordinals := [], [];
    for j := lo to hi
      invariant AreFirst(plan, lo, j, first, ordinals)
    {
      if plan.records[j].window == 0 {
        forall a | 0 <= a < |first| ensures ordinals[a] < plan.records[j].ordinal {
          assert plan.records[first[a]].Before(plan.records[j]);
        }
        first, ordinals := first + [j], ordinals + [plan.records[j].ordinal];
      }
    }
  }

  /** The neighbour a binary search of the book's ordinals finds is the line, if there is one. */
  method FindLine(q: Question, lo: nat, hi: nat, first: seq<nat>, ordinals: seq<nat>, ordinal: int)
    returns (line: Option<nat>)
    requires q.Valid() && IsBook(q.plan, lo, hi) && AreFirst(q.plan, lo, hi, first, ordinals)
    ensures line == q.Line(q.plan.records[lo].book, ordinal)
    ensures line.Some? ==> line.value < |q.plan.records|
  {
    ghost var book := q.plan.records[lo].book;
    if ordinal < 0 {
      return None;
    }
    var found, at := BinarySearch(ordinals, ordinal);
    if found {
      LineUnique(q, first[at], book, ordinal);
      return Some(first[at]);
    }
    forall j: nat ensures !q.FirstWindow(j, book, ordinal) {
      if j < |q.plan.records| && lo <= j < hi && q.plan.records[j].window == 0 {
        assert j in first;
      }
    }
    return None;
  }

  /** One neighbour of a short record: a candidate, or none. */
  method TryNeighbour(q: Question, i: nat, lo: nat, hi: nat, first: seq<nat>, ordinals: seq<nat>, offset: int)
    returns (candidate: Option<Target>)
    requires q.Valid() && IsBook(q.plan, lo, hi) && AreFirst(q.plan, lo, hi, first, ordinals) && lo <= i < hi
    ensures candidate == q.Candidate(i, offset)
  {
    var record := q.plan.records[i];
    var line := FindLine(q, lo, hi, first, ordinals, record.ordinal + offset);
    if line.None? || q.plan.records[line.value].short {
      return None;
    }
    return q.Scored(record, q.plan.records[line.value]);
  }

  /** The best target of a short record: its neighbours tried in order. */
  method ChooseTarget(q: Question, i: nat, lo: nat, hi: nat, first: seq<nat>, ordinals: seq<nat>)
    returns (best: Option<Target>)
    requires q.Valid() && IsBook(q.plan, lo, hi) && AreFirst(q.plan, lo, hi, first, ordinals) && lo <= i < hi
    ensures best == q.Choice(i)
    ensures best.Some? <==> exists j: nat :: q.Qualifies(i, j)
    ensures best.Some? ==> q.Names(i, best.value)
  {
    best := None;
    ghost var candidates := q.Candidates(i);
    for k := 0 to |NEIGHBOURS|
      invariant best == Best(candidates[..k])
    {
      assert candidates[..k + 1][..k] == candidates[..k];
      var candidate := TryNeighbour(q, i, lo, hi, first, ordinals, NEIGHBOURS[k]);
      best := Better(best, candidate);
    }
    assert candidates[..|NEIGHBOURS|] == candidates;
    ChoiceIsPreferable(q, i);
  }

  /** What is found among the first `n` records: the target of each that has one. */
  ghost predicate FoundAre(q: Question, n: nat, found: map<nat, Target>, sources: set<Key>)
    requires n <= |q.plan.records|
  {
    ChoicesAre(q, n, found) && SourcesAre(q, found, sources)
  }

  ghost predicate ChoicesAre(q: Question, n: nat, found: map<nat, Target>)
    requires n <= |q.plan.records|
  {
    && (forall i: nat :: i in found <==> i < n && q.Found(i))
    && (forall i: nat :: i in found ==> Some(found[i]) == q.Choice(i))
  }

  ghost predicate SourcesAre(q: Question, found: map<nat, Target>, sources: set<Key>) {
    && (forall i: nat :: i in found ==> i < |q.plan.records| && q.plan.records[i].Key() in sources)
    && (forall key :: key in sources ==> SourceOf(q, found, key))
  }

  ghost predicate SourceOf(q: Question, found: map<nat, Target>, key: Key) {
    exists i: nat :: i in found && i < |q.plan.records| && q.plan.records[i].Key() == key
  }

  /** Decide one book: every short first window's best target. */
  method DecideBook(q: Question, lo: nat, hi: nat, before: map<nat, Target>, sourcesBefore: set<Key>)
    returns (found: map<nat, Target>, sources: set<Key>)
    requires q.Valid() && IsBook(q.plan, lo, hi)
    requires FoundAre(q, lo, before, sourcesBefore)
    ensures FoundAre(q, hi, found, sources)
  {
    var first, ordinals := FirstWindows(q.plan, lo, hi);
    found, sources := before, sourcesBefore;
    for i := lo to hi
      invariant FoundAre(q, i, found, sources)
    {
      var record := q.plan.records[i];
      if record.short {
        var best := ChooseTarget(q, i, lo, hi, first, ordinals);
        if best.Some? {
          FoundOne(q, i, found, sources, best.value);
          found, sources := found[i := best.value], sources + {record.Key()};
        }
      }
    }
  }

  lemma FoundOne(q: Question, i: nat, found: map<nat, Target>, sources: set<Key>, target: Target)
    requires i < |q.plan.records| && q.plan.records[i].short && q.Choice(i) == Some(target)
    requires FoundAre(q, i, found, sources)
    ensures FoundAre(q, i + 1, found[i := target], sources + {q.plan.records[i].Key()})
  {
    ChoicesOne(q, i, found, target);
    SourcesOne(q, i, found, sources, target);
  }

  lemma ChoicesOne(q: Question, i: nat, found: map<nat, Target>, target: Target)
    requires i < |q.plan.records| && q.plan.records[i].short && q.Choice(i) == Some(target)
    requires ChoicesAre(q, i, found)
    ensures ChoicesAre(q, i + 1, found[i := target])
  {
  }

  lemma SourcesOne(q: Question, i: nat, found: map<nat, Target>, sources: set<Key>, target: Target)
    requires i < |q.plan.records| && SourcesAre(q, found, sources)
    ensures SourcesAre(q, found[i := target], sources + {q.plan.records[i].Key()})
  {
    forall key | key in sources + {q.plan.records[i].Key()} ensures SourceOf(q, found[i := target], key) {
      SourceStill(q, found, i, target, key);
    }
  }

  lemma SourceStill(q: Question, found: map<nat, Target>, i: nat, target: Target, key: Key)
    requires i < |q.plan.records| && (SourceOf(q, found, key) || q.plan.records[i].Key() == key)
    ensures SourceOf(q, found[i := target], key)
  {
    var after := found[i := target];
    if SourceOf(q, found, key) {
      var j: nat :| j in found && j < |q.plan.records| && q.plan.records[j].Key() == key;
      assert j in after;
    } else {
      assert i in after;
    }
  }

  /** A key is aliased only where every one of its records found a target. */
  method WholeKeys(q: Question, found: map<nat, Target>, sources: set<Key>) returns (whole: set<Key>)
    requires forall i: nat :: i in found <==> i < |q.plan.records| && q.Found(i)
    ensures forall key :: key in whole <==> key in sources && q.Whole(|q.plan.records|, key)
  {
    whole := sources;
    for i := 0 to |q.plan.records|
      invariant forall key :: key in whole <==> key in sources && q.Whole(i, key)
    {
      var key := q.plan.records[i].Key();
      if key in whole && i !in found {
        whole := whole - {key};
      }
    }
  }

  /** Decide the aliases of a plan at a threshold in (0, 1]; none or 0 decides none. */
  method DecideWith(plan: PlanRecords, cosine: Cosine, threshold: Option<real>)
    returns (result: Result<Aliases, AliasError>)
    requires plan.Valid()
    ensures result.Failure? <==> threshold.Some? && threshold.value > 1.0
    ensures result.Success? && threshold.Some? && threshold.value > 0.0 ==>
      && Decides(Question(plan, cosine, threshold.value), result.value)
      && Shared(Question(plan, cosine, threshold.value), result.value.targets)
    ensures result.Success? && (threshold.None? || threshold.value <= 0.0) ==> result.value == Aliases(map[], 0)
  {
    if threshold.None? || threshold.value <= 0.0 {
      return Success(Aliases(map[], 0));
    }
    if threshold.value > 1.0 {
      return Failure(ThresholdOutOfRange);
    }
    var q := Question(plan, cosine, threshold.value);
    if !plan.windowed {
      NoneShort(q);
      DecidesShared(q, Aliases(map[], 0));
      return Success(Aliases(map[], 0));
    }
    var found, sources := DecideBooks(q);
    var whole := WholeKeys(q, found, sources);
    var targets := map i | i in found && plan.records[i].Key() in whole :: found[i];
    KeysAreWhole(q, found, sources, whole);
    DecidesShared(q, Aliases(targets, |whole|));
    return Success(Aliases(targets, |whole|));
  }

  method DecideBooks(q: Question) returns (found: map<nat, Target>, sources: set<Key>)
    requires q.Valid()
    ensures FoundAre(q, |q.plan.records|, found, sources)
  {
    var records := q.plan.records;
    var lo := 0;
    found, sources := map[], {};
    for hi := 0 to |records|
      invariant lo <= hi && (hi > 0 ==> lo < hi)
      invariant forall j :: lo <= j < hi ==> records[j].book == records[lo].book
      invariant forall j :: 0 <= j < lo ==> records[j].book != records[lo].book
      invariant FoundAre(q, lo, found, sources)
    {
      if hi > 0 && records[hi].book != records[hi - 1].book {
        BookEnds(q.plan, lo, hi);
        found, sources := DecideBook(q, lo, hi, found, sources);
        lo := hi;
      }
    }
    if |records| > 0 {
      found, sources := DecideBook(q, lo, |records|, found, sources);
    }
  }

  /** Books are contiguous. */
  lemma BookEnds(plan: PlanRecords, lo: nat, hi: nat)
    requires plan.Valid() && lo < hi < |plan.records| && plan.records[hi].book != plan.records[hi - 1].book
    requires forall j :: lo <= j < hi ==> plan.records[j].book == plan.records[lo].book
    requires forall j :: 0 <= j < lo ==> plan.records[j].book != plan.records[lo].book
    ensures IsBook(plan, lo, hi)
    ensures forall j :: 0 <= j < hi ==> plan.records[j].book != plan.records[hi].book
  {
    assert plan.records[hi - 1].Before(plan.records[hi]);
    forall j | 0 <= j < |plan.records| && j != hi
      ensures j < hi ==> plan.records[j].book != plan.records[hi].book
      ensures j > hi ==> plan.records[j].book != plan.records[lo].book
    {
      if j < hi - 1 {
        assert plan.records[j].Before(plan.records[hi - 1]);
      } else if j > hi {
        assert plan.records[hi].Before(plan.records[j]);
      }
    }
  }

  lemma NoneShort(q: Question)
    requires q.Valid() && !q.plan.windowed
    ensures Decides(q, Aliases(map[], 0))
  {
    assert forall i: nat :: i < |q.plan.records| ==> !q.plan.records[i].short;
    assert (set i | 0 <= i < |q.plan.records| && q.Aliased(i) :: q.plan.records[i].Key()) == {};
  }

  lemma KeysAreWhole(q: Question, found: map<nat, Target>, sources: set<Key>, whole: set<Key>)
    requires FoundAre(q, |q.plan.records|, found, sources)
    requires forall key :: key in whole <==> key in sources && q.Whole(|q.plan.records|, key)
    ensures whole == set i | 0 <= i < |q.plan.records| && q.Aliased(i) :: q.plan.records[i].Key()
    ensures forall i: nat :: i in found && q.plan.records[i].Key() in whole <==> i < |q.plan.records| && q.Aliased(i)
  {
    var keys := set i | 0 <= i < |q.plan.records| && q.Aliased(i) :: q.plan.records[i].Key();
    forall key | key in whole ensures key in keys {
      var i: nat :| i in found && q.plan.records[i].Key() == key;
      assert q.Aliased(i);
    }
  }
}
