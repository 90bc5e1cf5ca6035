/** Plans that no limit of a segment's writer is near: fewer than 2^32 records, each at a line a hint can name. */
module SmallPlans {
  import opened Plan
  import opened LedgerSplit
  import opened Assemble

  function RecordsIn(b: BookRecords): nat {
    |b.primary| + |b.extras| + |b.foreign|
  }

  function Total(counts: Counts): nat {
    counts.slots + counts.extras + counts.foreign
  }

  lemma {:induction false} InsertLeastWithin(s: seq<(Key, nat)>, x: (Key, nat), bound: nat)
    requires (forall r <- s :: r.1 <= bound) && x.1 <= bound
    ensures |InsertLeast(s, x)| <= |s| + 1 && forall r <- InsertLeast(s, x) :: r.1 <= bound
  {
    if s != [] && s[|s| - 1].0 > x.0 { InsertLeastWithin(s[..|s| - 1], x, bound); }
  }

  lemma {:induction false} LeastPerKeyWithin(s: seq<(Key, nat)>, bound: nat)
    requires forall r <- s :: r.1 <= bound
    ensures |LeastPerKey(s)| <= |s| && forall r <- LeastPerKey(s) :: r.1 <= bound
  {
    if s != [] {
      LeastPerKeyWithin(s[..|s| - 1], bound);
      InsertLeastWithin(LeastPerKey(s[..|s| - 1]), s[|s| - 1], bound);
    }
  }

  lemma FinishWithin(b: BookRecords)
    requires Hinted(b)
    ensures Hinted(Finish(b)) && RecordsIn(Finish(b)) <= RecordsIn(b)
  {
    LeastPerKeyWithin(b.foreign, HINT_MASK);
  }

  lemma AddWithin(build: Build, b: BookRecords, i: nat)
    requires build.Valid() && i < |build.now.plan.records| && build.now.plan.records[i].ordinal <= HINT_MASK
    requires Hinted(b)
    ensures Hinted(build.AddRecord(b, i)) && RecordsIn(build.AddRecord(b, i)) <= RecordsIn(b) + 1
  {
  }

  lemma FitSmall(before: Counts, b: BookRecords, n: nat)
    requires Total(before) + RecordsIn(b) <= n < SLOT_LIMIT
    ensures before.Add(b).Fit() && Total(before.Add(b)) <= n
  {
  }

  lemma TakesSmall(books: seq<BookRecords>, b: BookRecords, n: nat)
    requires TakesAll(books) && Hinted(b) && Total(CountsOf(books)) + RecordsIn(b) <= n < SLOT_LIMIT
    ensures TakesAll(books + [b]) == true && Total(CountsOf(books + [b])) <= n
  {
    FitSmall(CountsOf(books), b, n);
    TakesNext(books, b);
    assert (books + [b])[..|books|] == books;
  }

  /** A plan of fewer than 2^32 records, each at a line a hint can name. */
  ghost predicate Small(plan: PlanRecords) {
    && |plan.records| < SLOT_LIMIT
    && forall i {:trigger plan.records[i]} :: 0 <= i < |plan.records| ==> plan.records[i].ordinal <= HINT_MASK
  }

  /** The books taken after `n` records and the one being filled hold `n` at most. */
  ghost predicate Few(books: seq<BookRecords>, book: BookRecords, n: nat) {
    TakesAll(books) && Hinted(book) && Total(CountsOf(books)) + RecordsIn(book) <= n
  }

  lemma FewStart(books: seq<BookRecords>, book: BookRecords, n: nat, next: nat)
    requires Few(books, book, n) == true && n < SLOT_LIMIT
    ensures Few(books + [Finish(book)], Empty(next), n) == true && TakesAll(books + [Finish(book)]) == true
  {
    FinishWithin(book);
    TakesSmall(books, Finish(book), n);
  }

  lemma FewAdd(build: Build, books: seq<BookRecords>, book: BookRecords, n: nat)
    requires build.Valid() && n < |build.now.plan.records| && build.now.plan.records[n].ordinal <= HINT_MASK
    requires Few(books, book, n) == true
    ensures Few(books, build.AddRecord(book, n), n + 1) == true
  {
    AddWithin(build, book, n);
  }

  /** The books begun by the time `n` records are read, and the last one's so far. */
  ghost predicate FewAt(build: Build, n: nat, books: seq<BookRecords>, book: BookRecords)
    requires build.Valid() && 0 < n <= |build.now.plan.records|
  {
    && books == BooksBegun(build, n) && book == build.Contents(build.now.plan.records[n - 1].book, n)
    && Few(books, book, n)
  }

  lemma ContentsNext(build: Build, m: nat, n: nat, filled: BookRecords)
    requires build.Valid() && m < |build.now.plan.records| && n == m + 1
    requires filled == build.Contents(build.now.plan.records[m].book, m)
    ensures build.Contents(build.now.plan.records[m].book, n) == build.AddRecord(filled, m)
  {
  }

  lemma BegunNext(build: Build, m: nat, n: nat, books: seq<BookRecords>, filled: BookRecords)
    requires build.Valid() && 0 < m < |build.now.plan.records| && n == m + 1 && books == BooksBegun(build, m)
    requires filled == build.Contents(build.now.plan.records[m - 1].book, m)
    ensures BooksBegun(build, n) ==
      if build.now.plan.records[m - 1].book == build.now.plan.records[m].book then books else books + [Finish(filled)]
  {
  }

  lemma IsFewAt(build: Build, n: nat, books: seq<BookRecords>, book: BookRecords)
    requires build.Valid() && 0 < n <= |build.now.plan.records|
    requires books == BooksBegun(build, n) && book == build.Contents(build.now.plan.records[n - 1].book, n)
    requires Few(books, book, n) == true
    ensures FewAt(build, n, books, book) == true
  {
  }

  lemma FewNone(books: seq<BookRecords>, next: nat)
    requires books == []
    ensures Few(books, Empty(next), 0) == true
  {
  }

  lemma FirstContents(build: Build, m: nat, n: nat)
    requires build.Valid() && m == 0 && n == m + 1 && m < |build.now.plan.records|
    ensures build.Contents(build.now.plan.records[m].book, n) ==
      build.AddRecord(Empty(build.now.plan.records[m].book), m)
    ensures BooksBegun(build, n) == []
  {
    NothingYet(build, build.now.plan.records[m].book, m);
    ContentsNext(build, m, n, build.Contents(build.now.plan.records[m].book, m));
  }

  lemma FewFirst(build: Build, m: nat, n: nat, books: seq<BookRecords>, book: BookRecords)
    requires build.Valid() && m == 0 && n == m + 1 && m < |build.now.plan.records|
    requires build.now.plan.records[m].ordinal <= HINT_MASK
    requires books == [] && book == build.AddRecord(Empty(build.now.plan.records[m].book), m)
    ensures FewAt(build, n, books, book) == true
  {
    FirstContents(build, m, n);
    FewNone(books, build.now.plan.records[m].book);
    FewAdd(build, books, Empty(build.now.plan.records[m].book), m);
    IsFewAt(build, n, books, book);
  }

  lemma NothingYet(build: Build, book: nat, m: nat)
    requires build.Valid() && m == 0
    ensures build.Contents(book, m) == Empty(book)
  {
  }

  /** The next record is of the same book. */
  lemma FewOn(build: Build, m: nat, n: nat, books: seq<BookRecords>, book: BookRecords)
    requires build.Valid() && 0 < m < |build.now.plan.records| && n == m + 1
    requires build.now.plan.records[m].ordinal <= HINT_MASK
    requires FewAt(build, m, books, book) == true
    requires build.now.plan.records[m - 1].book == build.now.plan.records[m].book
    ensures FewAt(build, n, books, build.AddRecord(book, m)) == true
  {
    FewAdd(build, books, book, m);
    ContentsNext(build, m, n, book);
    BegunNext(build, m, n, books, book);
    IsFewAt(build, n, books, build.AddRecord(book, m));
  }

  /** Or it begins one. */
  lemma FewOver(build: Build, m: nat, n: nat, books: seq<BookRecords>, book: BookRecords, next: BookRecords)
    requires build.Valid() && 0 < m < |build.now.plan.records| < SLOT_LIMIT && n == m + 1
    requires build.now.plan.records[m].ordinal <= HINT_MASK
    requires FewAt(build, m, books, book) == true
    requires build.now.plan.records[m - 1].book != build.now.plan.records[m].book
    requires next == build.AddRecord(Empty(build.now.plan.records[m].book), m)
    ensures FewAt(build, n, books + [Finish(book)], next) == true
  {
    FewStart(books, book, m, build.now.plan.records[m].book);
    NothingOfNext(build, m);
    FewAdd(build, books + [Finish(book)], Empty(build.now.plan.records[m].book), m);
    ContentsNext(build, m, n, Empty(build.now.plan.records[m].book));
    BegunNext(build, m, n, books, book);
    IsFewAt(build, n, books + [Finish(book)], next);
  }

  lemma {:induction false} BegunFew(build: Build, n: nat) returns (books: seq<BookRecords>, book: BookRecords)
    requires build.Valid() && 0 < n <= |build.now.plan.records| && Small(build.now.plan)
    ensures FewAt(build, n, books, book) == true
  {
    var records, m := build.now.plan.records, n - 1;
    if m == 0 {
      books, book := [], build.AddRecord(Empty(records[m].book), m);
      FewFirst(build, m, n, books, book);
    } else {
      var before, filled := BegunFew(build, m);
      if records[m - 1].book == records[m].book {
        books, book := before, build.AddRecord(filled, m);
        FewOn(build, m, n, before, filled);
      } else {
        books, book := before + [Finish(filled)], build.AddRecord(Empty(records[m].book), m);
        FewOver(build, m, n, before, filled, book);
      }
    }
  }

  lemma {:induction false} NewKeysFew(split: Split, n: nat)
    requires n <= |split.plan.records|
    ensures |split.NewKeys(n)| <= n
  {
    if n > 0 { NewKeysFew(split, n - 1); }
  }

  lemma DecidedNext(split: Split, n: nat)
    requires 0 < n <= |split.plan.records| && Decidable(split, n - 1) == n - 1
    requires |split.NewKeys(n)| <= SLOT_LIMIT
    ensures Decidable(split, n) == n
  {
  }

  lemma {:induction false} SmallPlanDecided(split: Split, n: nat)
    requires n <= |split.plan.records| < SLOT_LIMIT
    ensures Decidable(split, n) == n
  {
    if n > 0 {
      SmallPlanDecided(split, n - 1);
      NewKeysFew(split, n);
      DecidedNext(split, n);
    }
  }

  lemma AllBooksAre(build: Build, n: nat, books: seq<BookRecords>, book: BookRecords)
    requires build.Valid() && 0 < n == |build.now.plan.records|
    requires books == BooksBegun(build, n) && book == build.Contents(build.now.plan.records[n - 1].book, n)
    ensures AllBooks(build) == books + [Finish(book)]
  {
  }

  lemma SmallBooksTaken(build: Build, n: nat)
    requires build.Valid() && Small(build.now.plan) && 0 < n == |build.now.plan.records|
    ensures TakesAll(AllBooks(build)) == true && TakesAll(BooksBegun(build, n)) == true
  {
    var books, book := BegunFew(build, n);
    FewStart(books, book, n, 0);
    AllBooksAre(build, n, books, book);
  }

  /** The writer takes every book of a small plan, and every new key of it a slot. */
  lemma SmallPlanTaken(build: Build)
    requires build.Valid() && Small(build.now.plan)
    ensures TakesAll(AllBooks(build)) && TakesAll(BooksBegun(build, |build.now.plan.records|))
    ensures Decidable(build.Split(), |build.now.plan.records|) == |build.now.plan.records|
  {
    if |build.now.plan.records| > 0 { SmallBooksTaken(build, |build.now.plan.records|); }
    SmallPlanDecided(build.Split(), |build.now.plan.records|);
  }
}
