/**
 Directives that name files of further directives, expanded in place. Which directives name a file,
 and what a file holds, is left to the program that has them.
 */
module NestedFiles {
  import opened Counting
  import opened Options

  /** The file that a directive names, what a readable file holds, and what one that cannot be read comes to. */
  datatype Nesting<!D> = Nesting(names: D -> Option<string>, content: string -> Option<seq<D>>, unreadable: D)

  /**
   The parser calls itself for a nested file; `stack` is the depth of calls it has room for. A deeper
   nesting, as of a file that includes itself, comes to the same as a file that cannot be read.
   */
  function Expansion<D>(n: Nesting<D>, stack: nat, ds: seq<D>): seq<D>
    decreases stack, 1, |ds|
  {
    if ds == [] then []
    else Expansion(n, stack, ds[..|ds| - 1]) + Of(n, stack, ds[|ds| - 1])
  }

  function Of<D>(n: Nesting<D>, stack: nat, d: D): seq<D>
    decreases stack, 0
  {
    if !Readable(n, d) then [if n.names(d).None? then d else n.unreadable]
    else if stack == 0 then [n.unreadable]
    else Expansion(n, stack - 1, Content(n, d))
  }

  /** The directive names a file that can be read. */
  predicate Readable<D>(n: Nesting<D>, d: D) {
    n.names(d).Some? && n.content(n.names(d).value).Some?
  }

  function Content<D>(n: Nesting<D>, d: D): seq<D>
    requires Readable(n, d)
  {
    n.content(n.names(d).value).value
  }

  lemma OfReadable<D>(n: Nesting<D>, stack: nat, left: nat, d: D)
    requires Readable(n, d) && stack == left + 1
    ensures Of(n, stack, d) == Expansion(n, left, Content(n, d))
  {
  }

  lemma ExpansionSingle<D>(n: Nesting<D>, stack: nat, ds: seq<D>)
    requires |ds| <= 1
    ensures Expansion(n, stack, ds) == if ds == [] then [] else Of(n, stack, ds[0])
  {
    if ds != [] {
      assert ds[..0] == [];
      assert [] + Of(n, stack, ds[0]) == Of(n, stack, ds[0]);
    }
  }

  lemma {:induction false} ExpansionAppend<D>(n: Nesting<D>, stack: nat, a: seq<D>, b: seq<D>)
    ensures Expansion(n, stack, a + b) == Expansion(n, stack, a) + Expansion(n, stack, b)
  {
    if b == [] {
      assert a + b == a;
    } else {
      assert (a + b)[..|a + b| - 1] == a + b[..|b| - 1];
      ExpansionAppend(n, stack, a, b[..|b| - 1]);
    }
  }

  /** A property of all directives in files is kept by expansion. */
  lemma {:induction false} ExpansionKeeps<D(!new)>(p: D -> bool, n: Nesting<D>, stack: nat, ds: seq<D>)
    requires p(n.unreadable)
    requires forall d, e :: Readable(n, d) && e in Content(n, d) ==> p(e)
    requires forall d :: d in ds ==> p(d)
    ensures forall d :: d in Expansion(n, stack, ds) ==> p(d)
    decreases stack, |ds|
  {
    if ds != [] {
      var front, last := ds[..|ds| - 1], ds[|ds| - 1];
      ExpansionKeeps(p, n, stack, front);
      if Readable(n, last) && stack > 0 {
        ExpansionKeeps(p, n, stack - 1, Content(n, last));
      }
    }
  }

  lemma {:induction false} ExpansionHolds<D>(n: Nesting<D>, stack: nat, ds: seq<D>, d: D)
    requires d in ds && n.names(d).None?
    ensures d in Expansion(n, stack, ds)
  {
    if d in ds[..|ds| - 1] {
      ExpansionHolds(n, stack, ds[..|ds| - 1], d);
    } else {
      assert Of(n, stack, ds[|ds| - 1]) == [d];
    }
  }

  /** A stack that was enough for an expansion is as good as any deeper one. */
  lemma {:induction false} ExpansionSettles<D>(n: Nesting<D>, stack: nat, deeper: nat, ds: seq<D>)
    requires stack <= deeper && n.unreadable !in Expansion(n, stack, ds)
    ensures Expansion(n, deeper, ds) == Expansion(n, stack, ds)
    decreases stack, |ds|
  {
    if ds != [] {
      var front, last := ds[..|ds| - 1], ds[|ds| - 1];
      assert Expansion(n, stack, ds) == Expansion(n, stack, front) + Of(n, stack, last);
      ExpansionSettles(n, stack, deeper, front);
      if Readable(n, last) {
        assert stack > 0 by {
          assert stack == 0 ==> n.unreadable in Of(n, stack, last);
        }
        ExpansionSettles(n, stack - 1, deeper - 1, Content(n, last));
      }
    }
  }

  /** The files named rank below a bound. */
  ghost predicate NestedBelow<D(!new)>(n: Nesting<D>, rank: string -> nat, bound: nat, ds: seq<D>) {
    forall d :: d in ds && Readable(n, d) ==> rank(n.names(d).value) < bound
  }

  /** No file includes itself, directly or through others: each ranks above those it names. */
  ghost predicate Acyclic<D(!new)>(n: Nesting<D>, rank: string -> nat) {
    forall d :: Readable(n, d) ==> NestedBelow(n, rank, rank(n.names(d).value), Content(n, d))
  }

  /** Among files that do not include themselves, all stacks as deep as their ranks give the same expansion. */
  lemma {:induction false} AcyclicSettles<D(!new)>(
    n: Nesting<D>, rank: string -> nat, stack: nat, deeper: nat, ds: seq<D>)
    requires Acyclic(n, rank) && NestedBelow(n, rank, stack, ds) && stack <= deeper
    ensures Expansion(n, deeper, ds) == Expansion(n, stack, ds)
    decreases stack, |ds|
  {
    if ds != [] {
      var front, last := ds[..|ds| - 1], ds[|ds| - 1];
      AcyclicSettles(n, rank, stack, deeper, front);
      if Readable(n, last) {
        assert last in ds;
        assert NestedBelow(n, rank, rank(n.names(last).value), Content(n, last));
        AcyclicSettles(n, rank, stack - 1, deeper - 1, Content(n, last));
      }
    }
  }

  /** Files of which each includes one of them again. */
  ghost predicate Cyclic<D(!new)>(n: Nesting<D>, files: set<string>) {
    forall d :: Readable(n, d) && n.names(d).value in files ==> LeadsInto(n, files, Content(n, d))
  }

  ghost predicate LeadsInto<D(!new)>(n: Nesting<D>, files: set<string>, ds: seq<D>) {
    exists d :: d in ds && Readable(n, d) && n.names(d).value in files
  }

  /** No stack is deep enough for them. */
  lemma {:induction false} CycleNeverSettles<D(!new)>(n: Nesting<D>, files: set<string>, stack: nat, ds: seq<D>)
    requires Cyclic(n, files) && LeadsInto(n, files, ds)
    ensures n.unreadable in Expansion(n, stack, ds)
    decreases stack, |ds|
  {
    var front, last := ds[..|ds| - 1], ds[|ds| - 1];
    if LeadsInto(n, files, front) {
      CycleNeverSettles(n, files, stack, front);
    } else if stack > 0 {
      assert Readable(n, last) && n.names(last).value in files;
      CycleNeverSettles(n, files, stack - 1, Content(n, last));
    }
  }

  /** Where files have ranks, no directives lead into a cycle. */
  lemma AcyclicHasNoCycle<D(!new)>(n: Nesting<D>, rank: string -> nat, files: set<string>, ds: seq<D>)
    requires Acyclic(n, rank) && Cyclic(n, files)
    ensures !LeadsInto(n, files, ds)
  {
    if LeadsInto(n, files, ds) {
      var d :| d in ds && Readable(n, d) && n.names(d).value in files;
      NoCycleBelow(n, rank, files, rank(n.names(d).value), Content(n, d));
    }
  }

  lemma {:induction false} NoCycleBelow<D(!new)>(
    n: Nesting<D>, rank: string -> nat, files: set<string>, bound: nat, ds: seq<D>)
    requires Acyclic(n, rank) && Cyclic(n, files) && NestedBelow(n, rank, bound, ds)
    ensures !LeadsInto(n, files, ds)
    decreases bound
  {
    if LeadsInto(n, files, ds) {
      var d :| d in ds && Readable(n, d) && n.names(d).value in files;
      assert NestedBelow(n, rank, rank(n.names(d).value), Content(n, d));
      NoCycleBelow(n, rank, files, rank(n.names(d).value), Content(n, d));
    }
  }

  // ---- finitely many files: a depth that is enough, or a cycle ----

  /** Every readable file is one of these. */
  ghost predicate Among<D(!new)>(n: Nesting<D>, all: set<string>) {
    forall d :: Readable(n, d) ==> n.names(d).value in all
  }

  /** The files that the directives name are all of these, as far as they can be read. */
  ghost predicate NamesOnly<D(!new)>(n: Nesting<D>, ds: seq<D>, files: set<string>) {
    forall d :: d in ds && Readable(n, d) ==> n.names(d).value in files
  }

  /** The file names only these, by whatever directive it is itself named. */
  ghost predicate HoldsOnly<D(!new)>(n: Nesting<D>, f: string, files: set<string>) {
    forall d :: Readable(n, d) && n.names(d).value == f ==> NamesOnly(n, Content(n, d), files)
  }

  /** The files below which nesting is at most `depth` deep. */
  ghost function Grounded<D(!new)>(n: Nesting<D>, all: set<string>, depth: nat): set<string> {
    if depth == 0 then {} else set f | f in all && HoldsOnly(n, f, Grounded(n, all, depth - 1))
  }

  lemma {:induction false} GroundedGrows<D(!new)>(n: Nesting<D>, all: set<string>, depth: nat)
    ensures Grounded(n, all, depth) <= Grounded(n, all, depth + 1) <= all
  {
    if depth > 0 {
      GroundedGrows(n, all, depth - 1);
      forall f | f in Grounded(n, all, depth) ensures f in Grounded(n, all, depth + 1) {
        assert HoldsOnly(n, f, Grounded(n, all, depth - 1));
        HoldsMore(n, f, Grounded(n, all, depth - 1), Grounded(n, all, depth));
      }
    }
  }

  lemma HoldsMore<D(!new)>(n: Nesting<D>, f: string, files: set<string>, more: set<string>)
    requires HoldsOnly(n, f, files) && files <= more
    ensures HoldsOnly(n, f, more)
  {
    forall d | Readable(n, d) && n.names(d).value == f ensures NamesOnly(n, Content(n, d), more) {
      assert NamesOnly(n, Content(n, d), files);
    }
  }

  /** Each depth adds a file, until none is added any more. */
  lemma {:induction false} GroundedFills<D(!new)>(n: Nesting<D>, all: set<string>, depth: nat)
    ensures |Grounded(n, all, depth)| >= depth || Grounded(n, all, depth + 1) == Grounded(n, all, depth)
  {
    if depth > 0 {
      GroundedFills(n, all, depth - 1);
      GroundedGrows(n, all, depth - 1);
      if Grounded(n, all, depth) != Grounded(n, all, depth - 1) {
        SubsetSize(Grounded(n, all, depth - 1), Grounded(n, all, depth));
      }
    }
  }

  /** What as many steps as there are files leave over. */
  ghost function CyclicFiles<D(!new)>(n: Nesting<D>, all: set<string>): set<string> {
    all - Grounded(n, all, |all|)
  }

  lemma GroundedIsFull<D(!new)>(n: Nesting<D>, all: set<string>)
    ensures Grounded(n, all, |all| + 1) == Grounded(n, all, |all|)
  {
    GroundedFills(n, all, |all|);
    GroundedGrows(n, all, |all|);
    SubsetSize(Grounded(n, all, |all|), all);
  }

  /** Each of them includes one of them again. */
  lemma CyclicFilesAreCyclic<D(!new)>(n: Nesting<D>, all: set<string>)
    requires Among(n, all)
    ensures Cyclic(n, CyclicFiles(n, all))
  {
    var last := Grounded(n, all, |all|);
    GroundedIsFull(n, all);
    forall d | Readable(n, d) && n.names(d).value in CyclicFiles(n, all)
      ensures LeadsInto(n, CyclicFiles(n, all), Content(n, d))
    {
      assert !HoldsOnly(n, n.names(d).value, last);
      assert !NamesOnly(n, Content(n, d), last);
      var e :| e in Content(n, d) && Readable(n, e) && n.names(e).value !in last;
      assert n.names(e).value in CyclicFiles(n, all);
    }
  }

  lemma {:induction false} GroundedSettles<D(!new)>(
    n: Nesting<D>, all: set<string>, depth: nat, deeper: nat, ds: seq<D>)
    requires NamesOnly(n, ds, Grounded(n, all, depth)) && depth <= deeper
    ensures Expansion(n, deeper, ds) == Expansion(n, depth, ds)
    decreases depth, |ds|
  {
    if ds != [] {
      var front, last := ds[..|ds| - 1], ds[|ds| - 1];
      GroundedSettles(n, all, depth, deeper, front);
      if Readable(n, last) {
        assert last in ds;
        assert HoldsOnly(n, n.names(last).value, Grounded(n, all, depth - 1));
        GroundedSettles(n, all, depth - 1, deeper - 1, Content(n, last));
      }
    }
  }

  /**
   With finitely many files, directives that do not lead into a cycle have one expansion, which every
   stack as deep as there are files gives; those that do have none with any stack.
   */
  lemma SettlesOrCycles<D(!new)>(n: Nesting<D>, all: set<string>, stack: nat, ds: seq<D>)
    requires Among(n, all)
    ensures LeadsInto(n, CyclicFiles(n, all), ds) ==> n.unreadable in Expansion(n, stack, ds)
    ensures !LeadsInto(n, CyclicFiles(n, all), ds) && stack >= |all| ==>
      Expansion(n, stack, ds) == Expansion(n, |all|, ds)
  {
    if LeadsInto(n, CyclicFiles(n, all), ds) {
      CyclicFilesAreCyclic(n, all);
      CycleNeverSettles(n, CyclicFiles(n, all), stack, ds);
    } else if stack >= |all| {
      GroundedSettles(n, all, |all|, stack, ds);
    }
  }
}
