/**
 * The exceptions of the library: `AssertionFailed` (a leaf failure), `ManyAssertionsFailed`
 * (an aggregate of a head failure and a list of further failures, itself an `AssertionFailed`),
 * and the other exception kinds that travel through callbacks (`Runtime`, `CantDecode`, ...).
 * The aggregate's message renderer (`formatMessage`) and its accessors are modelled here.
 */
module Exceptions {
  import opened Wrappers
  import opened Text

  /**
   * An `AssertionFailed`. A `Many` is a `ManyAssertionsFailed`: it keeps the message it was
   * constructed with, its "previous" exception, its first failure and the others.
   */
  datatype Failure =
    | Leaf(msg: string)
    | Many(msg: string, previous: Option<Failure>, first: Failure, rest: seq<Failure>)

  /** Throwables that are not an `AssertionFailed`. */
  datatype Error =
    | Runtime(message: string, cause: Option<Error>)
    | CantDecode(message: string, code: int)
    | CantEncode(message: string, code: int)
    | Thrown(message: string)

  /**
   * The outcome of a call that may throw: a value, an `AssertionFailed` (of either kind),
   * or any other throwable.
   */
  datatype Result<+T> = Ok(value: T) | Fail(failure: Failure) | Raise(error: Error)

  /** The result of a nullable-returning operation that did not short-circuit. */
  function Lift<T>(r: Result<T>): (l: Result<Option<T>>)
  {
    match r
    case Ok(x) => Ok(Some(x))
    case Fail(e) => Fail(e)
    case Raise(e) => Raise(e)
  }

  /** A non-success outcome, passed on unchanged at another result type (a rethrow). */
  function Propagate<A, B>(r: Result<A>): (p: Result<B>)
    requires !r.Ok?
    ensures p.Fail? <==> r.Fail?
    ensures p.Fail? ==> p.failure == r.failure
    ensures p.Raise? ==> p.error == r.error
  {
    match r
    case Fail(e) => Fail(e)
    case Raise(e) => Raise(e)
  }

  /**
   * Running calls one after another and collecting their values, stopping at the first one
   * that throws and rethrowing what it threw.
   */
  function Collect<T>(rs: seq<Result<T>>): (r: Result<seq<T>>)
    decreases |rs|
  {
    if rs == [] then Ok([])
    else if !rs[0].Ok? then Propagate(rs[0])
    else
      match Collect(rs[1..])
      case Ok(xs) => Ok([rs[0].value] + xs)
      case Fail(e) => Fail(e)
      case Raise(e) => Raise(e)
  }

  /** `Collect` succeeds exactly when every call does, and then holds their values in order. */
  lemma {:induction false} CollectOk<T>(rs: seq<Result<T>>)
    ensures Collect(rs).Ok? <==> forall i :: 0 <= i < |rs| ==> rs[i].Ok?
    ensures Collect(rs).Ok? ==>
              |Collect(rs).value| == |rs| &&
              forall i :: 0 <= i < |rs| ==> Collect(rs).value[i] == rs[i].value
    decreases |rs|
  {
    if rs != [] {
      CollectOk(rs[1..]);
      assert forall i :: 1 <= i < |rs| ==> rs[i] == rs[1..][i - 1];
    }
  }

  /** When call `i` is the first that throws, `Collect` rethrows exactly that. */
  lemma {:induction false} CollectFirstError<T>(rs: seq<Result<T>>, i: nat)
    requires i < |rs| && !rs[i].Ok?
    requires forall j :: 0 <= j < i ==> rs[j].Ok?
    ensures Collect(rs) == Propagate(rs[i])
    decreases i
  {
    if i > 0 {
      assert forall j :: 0 <= j < i - 1 ==> rs[1..][j] == rs[j + 1];
      CollectFirstError(rs[1..], i - 1);
    }
  }

  /** `getMessage()`. */
  function Message(f: Failure): string
  {
    f.msg
  }

  // ---------------------------------------------------------------------------------------------
  // Sizes, used only to show that rendering terminates.

  function Size(f: Failure): nat
  {
    match f
    case Leaf(_) => 1
    case Many(_, _, a, r) => 1 + Size(a) + SizeAll(r)
  }

  function SizeAll(fs: seq<Failure>): nat
  {
    if fs == [] then 0 else Size(fs[0]) + SizeAll(fs[1..])
  }

  lemma {:induction false} SizeAllAppend(a: seq<Failure>, b: seq<Failure>)
    ensures SizeAll(a + b) == SizeAll(a) + SizeAll(b)
    decreases |a|
  {
    if a == [] {
      assert a + b == b;
    } else {
      assert (a + b)[1..] == a[1..] + b;
      SizeAllAppend(a[1..], b);
    }
  }

  // ---------------------------------------------------------------------------------------------
  // The `usort` of `formatMessage`: leaves before aggregates, each group in its original order.

  /** The members of `fs` that are leaves (`leaves`) or aggregates (`!leaves`), in order. */
  function Select(fs: seq<Failure>, leaves: bool): (r: seq<Failure>)
  {
    if fs == [] then []
    else (if fs[0].Leaf? == leaves then [fs[0]] else []) + Select(fs[1..], leaves)
  }

  /** The order `usort` leaves the failures in under the comparator `formatMessage` passes it. */
  function LeavesFirst(fs: seq<Failure>): (r: seq<Failure>)
  {
    Select(fs, true) + Select(fs, false)
  }

  /** No aggregate stands before a leaf: the `formatMessage` comparator sees every pair in order. */
  ghost predicate LeavesBeforeAggregates(fs: seq<Failure>)
  {
    forall i, j :: 0 <= i < j < |fs| ==> !(fs[i].Many? && fs[j].Leaf?)
  }

  lemma {:induction false} SelectAppend(a: seq<Failure>, b: seq<Failure>, leaves: bool)
    ensures Select(a + b, leaves) == Select(a, leaves) + Select(b, leaves)
    decreases |a|
  {
    if a == [] {
      assert a + b == b;
    } else {
      assert (a + b)[0] == a[0];
      assert (a + b)[1..] == a[1..] + b;
      SelectAppend(a[1..], b, leaves);
    }
  }

  /** Selecting from a list whose members are all of one kind keeps all or nothing. */
  lemma {:induction false} SelectUniform(fs: seq<Failure>, leaves: bool)
    requires forall i :: 0 <= i < |fs| ==> fs[i].Leaf? == leaves
    ensures Select(fs, leaves) == fs
    ensures Select(fs, !leaves) == []
    decreases |fs|
  {
    if fs != [] {
      SelectUniform(fs[1..], leaves);
    }
  }

  lemma {:induction false} SelectKind(fs: seq<Failure>, leaves: bool)
    ensures forall i :: 0 <= i < |Select(fs, leaves)| ==> Select(fs, leaves)[i].Leaf? == leaves
    decreases |fs|
  {
    if fs != [] {
      SelectKind(fs[1..], leaves);
    }
  }

  lemma {:induction false} SelectHead(fs: seq<Failure>)
    requires fs != []
    ensures fs[0].Leaf? ==> Select(fs, true) == [fs[0]] + Select(fs[1..], true)
    ensures fs[0].Leaf? ==> Select(fs, false) == Select(fs[1..], false)
    ensures fs[0].Many? ==> Select(fs, true) == Select(fs[1..], true)
    ensures fs[0].Many? ==> Select(fs, false) == [fs[0]] + Select(fs[1..], false)
  {
  }

  lemma {:induction false} SelectMultiset(fs: seq<Failure>)
    ensures multiset(Select(fs, true)) + multiset(Select(fs, false)) == multiset(fs)
    decreases |fs|
  {
    if fs != [] {
      SelectMultiset(fs[1..]);
      SelectHead(fs);
      assert fs == [fs[0]] + fs[1..];
    }
  }

  lemma {:induction false} SelectSize(fs: seq<Failure>)
    ensures SizeAll(Select(fs, true)) + SizeAll(Select(fs, false)) == SizeAll(fs)
    decreases |fs|
  {
    if fs != [] {
      SelectSize(fs[1..]);
      SelectHead(fs);
      SizeAllAppend([fs[0]], Select(fs[1..], fs[0].Leaf?));
      assert ([fs[0]])[1..] == [];
    }
  }

  /** The sort is a permutation. */
  lemma LeavesFirstPermutation(fs: seq<Failure>)
    ensures multiset(LeavesFirst(fs)) == multiset(fs)
    ensures |LeavesFirst(fs)| == |fs|
  {
    SelectMultiset(fs);
    assert |multiset(LeavesFirst(fs))| == |multiset(fs)|;
  }

  /** After the sort every leaf comes before every aggregate. */
  lemma LeavesFirstOrdered(fs: seq<Failure>)
    ensures LeavesBeforeAggregates(LeavesFirst(fs))
  {
    SelectKind(fs, true);
    SelectKind(fs, false);
  }

  /** The sort is stable: the leaves, and the aggregates, keep their relative order. */
  lemma LeavesFirstStable(fs: seq<Failure>)
    ensures Select(LeavesFirst(fs), true) == Select(fs, true)
    ensures Select(LeavesFirst(fs), false) == Select(fs, false)
  {
    SelectKind(fs, true);
    SelectKind(fs, false);
    SelectAppend(Select(fs, true), Select(fs, false), true);
    SelectAppend(Select(fs, true), Select(fs, false), false);
    SelectUniform(Select(fs, true), true);
    SelectUniform(Select(fs, false), false);
  }

  lemma {:induction false} OrderedSplits(t: seq<Failure>)
    requires LeavesBeforeAggregates(t)
    ensures t == Select(t, true) + Select(t, false)
    decreases |t|
  {
    if t != [] {
      assert LeavesBeforeAggregates(t[1..]) by {
        forall i, j | 0 <= i < j < |t[1..]| ensures !(t[1..][i].Many? && t[1..][j].Leaf?) {
          assert t[1..][i] == t[i + 1] && t[1..][j] == t[j + 1];
        }
      }
      if t[0].Leaf? {
        OrderedSplits(t[1..]);
      } else {
        assert forall i :: 0 <= i < |t[1..]| ==> !t[1..][i].Leaf? by {
          forall i | 0 <= i < |t[1..]| ensures !t[1..][i].Leaf? {
            assert t[1..][i] == t[i + 1];
          }
        }
        SelectUniform(t[1..], false);
      }
    }
  }

  /**
   * The stable leaves-first order is the only one that is ordered and keeps both groups'
   * order: any stable sort under the `formatMessage` comparator yields `LeavesFirst`.
   */
  lemma LeavesFirstUnique(fs: seq<Failure>, t: seq<Failure>)
    requires LeavesBeforeAggregates(t)
    requires Select(t, true) == Select(fs, true) && Select(t, false) == Select(fs, false)
    ensures t == LeavesFirst(fs)
  {
    OrderedSplits(t);
  }

  lemma SizeAllLeavesFirst(first: Failure, rest: seq<Failure>)
    ensures SizeAll(LeavesFirst([first] + rest)) == Size(first) + SizeAll(rest)
  {
    var fs := [first] + rest;
    SelectSize(fs);
    SizeAllAppend(Select(fs, true), Select(fs, false));
    assert fs[1..] == rest;
  }

  /** `s` with its element at `i` moved back to position `k`, the ones in between shifted up. */
  function Inserted(s: seq<Failure>, k: nat, i: nat): (r: seq<Failure>)
    requires k <= i < |s|
    ensures |r| == |s|
    ensures forall m :: 0 <= m < k ==> r[m] == s[m]
    ensures r[k] == s[i]
    ensures forall m :: k < m <= i ==> r[m] == s[m - 1]
    ensures forall m :: i < m < |s| ==> r[m] == s[m]
  {
    s[..k] + [s[i]] + s[k..i] + s[i + 1..]
  }

  /** Moves `a[k..i]` one place up and puts the old `a[i]` at `k`. */
  method InsertAt(a: array<Failure>, k: nat, i: nat)
    requires k <= i < a.Length
    modifies a
    ensures a[..] == Inserted(old(a[..]), k, i)
  {
    ghost var s := a[..];
    var x := a[i];
    var j := i;
    while j > k
      invariant k <= j <= i
      invariant forall m :: 0 <= m <= j ==> a[m] == s[m]
      invariant forall m :: j < m <= i ==> a[m] == s[m - 1]
      invariant forall m :: i < m < a.Length ==> a[m] == s[m]
    {
      a[j] := a[j - 1];
      j := j - 1;
    }
    a[k] := x;
    assert a[..] == Inserted(s, k, i);
  }

  /** Inserting the element after two groups, between them. */
  lemma InsertedBetween(ls: seq<Failure>, ms: seq<Failure>, x: Failure, tail: seq<Failure>)
    ensures Inserted(ls + ms + [x] + tail, |ls|, |ls| + |ms|) == ls + [x] + ms + tail
  {
    var s := ls + ms + [x] + tail;
    assert s[..|ls|] == ls;
    assert s[|ls|..|ls| + |ms|] == ms;
    assert s[|ls| + |ms|] == x;
    assert s[|ls| + |ms| + 1..] == tail;
  }

  lemma SelectPartsLength(fs: seq<Failure>)
    ensures |Select(fs, true)| + |Select(fs, false)| == |fs|
  {
    SelectMultiset(fs);
    assert |multiset(Select(fs, true)) + multiset(Select(fs, false))| == |multiset(fs)|;
  }

  /** How one more element changes the two groups of a prefix. */
  lemma SortStep(o: seq<Failure>, i: nat)
    requires i < |o|
    ensures o[i].Leaf? ==> Select(o[..i + 1], true) == Select(o[..i], true) + [o[i]]
    ensures o[i].Leaf? ==> Select(o[..i + 1], false) == Select(o[..i], false)
    ensures o[i].Many? ==> Select(o[..i + 1], true) == Select(o[..i], true)
    ensures o[i].Many? ==> Select(o[..i + 1], false) == Select(o[..i], false) + [o[i]]
  {
    assert o[..i + 1] == o[..i] + [o[i]];
    SelectAppend(o[..i], [o[i]], true);
    SelectAppend(o[..i], [o[i]], false);
    assert [o[i]][1..] == [];
  }

  /** A leaf joins the leaves already placed: the round is one insertion. */
  lemma SortRoundLeaf(o: seq<Failure>, i: nat, ls: seq<Failure>, ms: seq<Failure>)
    requires i < |o| && o[i].Leaf?
    requires ls == Select(o[..i], true) && ms == Select(o[..i], false) && |ls| + |ms| == i
    ensures Select(o[..i + 1], true) + Select(o[..i + 1], false) + o[i + 1..] == Inserted(ls + ms + o[i..], |ls|, i)
  {
    SortStep(o, i);
    assert ls + ms + o[i..] == ls + ms + [o[i]] + o[i + 1..] by {
      assert o[i..] == [o[i]] + o[i + 1..];
    }
    InsertedBetween(ls, ms, o[i], o[i + 1..]);
  }

  /** An aggregate stays where it is, after the aggregates already seen. */
  lemma SortRoundMany(o: seq<Failure>, i: nat, ls: seq<Failure>, ms: seq<Failure>)
    requires i < |o| && o[i].Many?
    requires ls == Select(o[..i], true) && ms == Select(o[..i], false)
    ensures Select(o[..i + 1], true) + Select(o[..i + 1], false) + o[i + 1..] == ls + ms + o[i..]
  {
    SortStep(o, i);
    assert o[i..] == [o[i]] + o[i + 1..];
  }

  /** One round of the sort: the next element joins its group, a leaf by insertion. */
  lemma SortRound(o: seq<Failure>, i: nat, ls: seq<Failure>, ms: seq<Failure>)
    requires i < |o| && ls == Select(o[..i], true) && ms == Select(o[..i], false)
    ensures |ls| + |ms| == i
    ensures (ls + ms + o[i..])[i] == o[i]
    ensures |Select(o[..i + 1], true)| == |ls| + (if o[i].Leaf? then 1 else 0)
    ensures o[i].Leaf? ==>
              Select(o[..i + 1], true) + Select(o[..i + 1], false) + o[i + 1..] == Inserted(ls + ms + o[i..], |ls|, i)
    ensures o[i].Many? ==> Select(o[..i + 1], true) + Select(o[..i + 1], false) + o[i + 1..] == ls + ms + o[i..]
  {
    SelectPartsLength(o[..i]);
    SortStep(o, i);
    if o[i].Leaf? {
      SortRoundLeaf(o, i, ls, ms);
    } else {
      SortRoundMany(o, i, ls, ms);
    }
  }

  /**
   * The in-place `usort` of `formatMessage`, as a stable insertion of each leaf after the leaves
   * already placed.
   */
  method SortLeavesFirst(a: array<Failure>)
    modifies a
    ensures a[..] == LeavesFirst(old(a[..]))
  {
    ghost var o := a[..];
    ghost var ls: seq<Failure>, ms: seq<Failure> := [], [];
    var i, k := 0, 0;
    while i < a.Length
      invariant 0 <= k <= i <= a.Length
      invariant ls == Select(o[..i], true) && ms == Select(o[..i], false)
      invariant k == |ls|
      invariant a[..] == ls + ms + o[i..]
    {
      SortRound(o, i, ls, ms);
      assert a[i] == a[..][i];
      if a[i].Leaf? {
        InsertAt(a, k, i);
        k := k + 1;
      }
      ls, ms := Select(o[..i + 1], true), Select(o[..i + 1], false);
      i := i + 1;
    }
    assert o[..a.Length] == o;
  }

  // ---------------------------------------------------------------------------------------------
  // Rendering (`ManyAssertionsFailed::formatMessage`).

  /** The first line at a nesting level: indentation, a bullet below the top level, the title. */
  function Header(level: nat): string
  {
    Repeat(Tab, level) + (if level > 0 then "- " else "") + "Expected any of the following:\n"
  }

  /** How a leaf child of a level-`level` aggregate is rendered. */
  function LeafLine(level: nat, message: string): string
  {
    Repeat(Tab, level + 1) + "- " + message
  }

  /** `formatMessage(level, first, ...rest)`. */
  function FormatMessage(level: nat, first: Failure, rest: seq<Failure>): string
    decreases Size(first) + SizeAll(rest), 2
  {
    SizeAllLeavesFirst(first, rest);
    Header(level) + Join("\n", Lines(level, LeavesFirst([first] + rest)))
  }

  /** The `array_map` of `formatMessage` over the sorted children. */
  function Lines(level: nat, children: seq<Failure>): seq<string>
    decreases SizeAll(children), 1
  {
    if children == [] then [] else [Bullet(level, children[0])] + Lines(level, children[1..])
  }

  /** One child: an aggregate is re-rendered from its own head and tail one level deeper. */
  function Bullet(level: nat, e: Failure): string
    decreases Size(e), 0
  {
    match e
    case Leaf(m) => LeafLine(level, m)
    case Many(_, _, a, r) => FormatMessage(level + 1, a, r)
  }

  /** `fromFailedAssertions(first, ...rest)`. */
  function FromFailedAssertions(first: Failure, rest: seq<Failure>): (r: Failure)
  {
    Many(FormatMessage(0, first, rest), Some(([first] + rest)[|rest|]), first, rest)
  }

  /** `getFailedAssertions()`. */
  function GetFailedAssertions(f: Failure): seq<Failure>
    requires f.Many?
  {
    [f.first] + f.rest
  }

  /** `unconsFailedAssertions()`. */
  function UnconsFailedAssertions(f: Failure): (Failure, seq<Failure>)
    requires f.Many?
  {
    (f.first, f.rest)
  }

  // ---------------------------------------------------------------------------------------------
  // Properties of the aggregate.

  /**
   * A built aggregate keeps its failures in construction order (unsorted), unconses to exactly
   * its arguments, has the last failure as its previous exception and the level-0 rendering as
   * its message.
   */
  lemma FromFailedAssertionsKeepsOrder(first: Failure, rest: seq<Failure>)
    ensures FromFailedAssertions(first, rest).Many?
    ensures GetFailedAssertions(FromFailedAssertions(first, rest)) == [first] + rest
    ensures UnconsFailedAssertions(FromFailedAssertions(first, rest)) == (first, rest)
    ensures FromFailedAssertions(first, rest).previous
              == Some(if rest == [] then first else rest[|rest| - 1])
    ensures Message(FromFailedAssertions(first, rest)) == FormatMessage(0, first, rest)
  {
  }

  /** The lines of a rendering correspond one to one to the sorted children. */
  lemma {:induction false} LinesMatchChildren(level: nat, children: seq<Failure>)
    ensures |Lines(level, children)| == |children|
    ensures forall i :: 0 <= i < |children| ==> Lines(level, children)[i] == Bullet(level, children[i])
    decreases |children|
  {
    if children != [] {
      LinesMatchChildren(level, children[1..]);
    }
  }

  /**
   * The layout of a level-`level` rendering: its header, then one line per child joined by
   * newlines, the leaves first (each `- message` indented one level deeper) in their original
   * order, then the aggregates in their original order, each rendered from its own head and tail
   * one level deeper.
   */
  lemma FormatMessageLayout(level: nat, first: Failure, rest: seq<Failure>)
    ensures var all := [first] + rest;
            var leaves, aggregates := Select(all, true), Select(all, false);
            var lines := Lines(level, LeavesFirst(all));
            && FormatMessage(level, first, rest) == Header(level) + Join("\n", lines)
            && |lines| == |all| == |leaves| + |aggregates|
            && (forall i :: 0 <= i < |leaves| ==> lines[i] == LeafLine(level, leaves[i].msg))
            && (forall j :: 0 <= j < |aggregates| ==>
                  aggregates[j].Many? &&
                  lines[|leaves| + j]
                  == FormatMessage(level + 1, aggregates[j].first, aggregates[j].rest))
  {
    var all := [first] + rest;
    var leaves, aggregates := Select(all, true), Select(all, false);
    LeavesFirstPermutation(all);
    LinesMatchChildren(level, LeavesFirst(all));
    SelectKind(all, true);
    SelectKind(all, false);
    assert forall i :: 0 <= i < |leaves| ==> LeavesFirst(all)[i] == leaves[i];
    assert forall j :: 0 <= j < |aggregates| ==> LeavesFirst(all)[|leaves| + j] == aggregates[j];
  }

  /** A nested aggregate is rendered from its head and tail: its stored message plays no part. */
  lemma BulletIgnoresStoredMessage(level: nat, m1: string, m2: string, p1: Option<Failure>,
                                   p2: Option<Failure>, first: Failure, rest: seq<Failure>)
    ensures Bullet(level, Many(m1, p1, first, rest)) == Bullet(level, Many(m2, p2, first, rest))
    ensures Bullet(level, Many(m1, p1, first, rest)) == FormatMessage(level + 1, first, rest)
  {
  }

  /**
   * The rendering depends on the order of the failures only through the order within the
   * leaves and within the aggregates: interleaving them differently renders the same text.
   */
  lemma RenderingIgnoresInterleaving(level: nat, f1: Failure, r1: seq<Failure>, f2: Failure, r2: seq<Failure>)
    requires Select([f1] + r1, true) == Select([f2] + r2, true)
    requires Select([f1] + r1, false) == Select([f2] + r2, false)
    ensures FormatMessage(level, f1, r1) == FormatMessage(level, f2, r2)
  {
  }

  /** A leaf and an aggregate render the same in either call order. */
  lemma LeafAndAggregateInEitherOrder(level: nat, leaf: Failure, aggregate: Failure)
    requires leaf.Leaf? && aggregate.Many?
    ensures FormatMessage(level, leaf, [aggregate]) == FormatMessage(level, aggregate, [leaf])
  {
    LeafAggregatePair(leaf, aggregate);
    RenderingIgnoresInterleaving(level, leaf, [aggregate], aggregate, [leaf]);
  }

  /** The groups of a leaf and an aggregate, in both call orders. */
  lemma LeafAggregatePair(leaf: Failure, aggregate: Failure)
    requires leaf.Leaf? && aggregate.Many?
    ensures Select([leaf] + [aggregate], true) == Select([aggregate] + [leaf], true) == [leaf]
    ensures Select([leaf] + [aggregate], false) == Select([aggregate] + [leaf], false) == [aggregate]
  {
    SelectHead([leaf] + [aggregate]);
    SelectHead([aggregate] + [leaf]);
    assert ([leaf] + [aggregate])[1..] == [aggregate];
    assert ([aggregate] + [leaf])[1..] == [leaf];
    SelectHead([aggregate]);
    SelectHead([leaf]);
    assert [aggregate][1..] == [] && [leaf][1..] == [];
  }

  /** The rendering of two children, such as the two in the tests, line by line. */
  lemma TwoLines(level: nat, c1: Failure, c2: Failure)
    ensures Join("\n", Lines(level, [c1, c2])) == Bullet(level, c1) + "\n" + Bullet(level, c2)
  {
    LinesMatchChildren(level, [c1, c2]);
    assert Lines(level, [c1, c2]) == [Bullet(level, c1), Bullet(level, c2)];
    assert [Bullet(level, c1), Bullet(level, c2)][1..] == [Bullet(level, c2)];
  }

  /** Two leaves render as a header and two leaf lines, in call order. */
  lemma TwoLeaves(level: nat, l1: Failure, l2: Failure)
    requires l1.Leaf? && l2.Leaf?
    ensures FormatMessage(level, l1, [l2])
            == Header(level) + LeafLine(level, l1.msg) + "\n" + LeafLine(level, l2.msg)
  {
    assert [l1] + [l2] == [l1, l2];
    SelectUniform([l1, l2], true);
    assert LeavesFirst([l1, l2]) == [l1, l2] + [];
    TwoLines(level, l1, l2);
    assert Bullet(level, l1) == LeafLine(level, l1.msg);
    assert Bullet(level, l2) == LeafLine(level, l2.msg);
    calc {
      FormatMessage(level, l1, [l2]);
      Header(level) + Join("\n", Lines(level, LeavesFirst([l1] + [l2])));
      Header(level) + Join("\n", Lines(level, [l1, l2]));
      Header(level) + (LeafLine(level, l1.msg) + "\n" + LeafLine(level, l2.msg));
    }
  }

  /** A leaf and an aggregate render as a header, the leaf line, then the nested rendering. */
  lemma LeafThenAggregate(level: nat, leaf: Failure, aggregate: Failure)
    requires leaf.Leaf? && aggregate.Many?
    ensures FormatMessage(level, leaf, [aggregate])
            == Header(level) + LeafLine(level, leaf.msg) + "\n"
               + FormatMessage(level + 1, aggregate.first, aggregate.rest)
  {
    var all := [leaf] + [aggregate];
    LeafAggregatePair(leaf, aggregate);
    assert LeavesFirst(all) == [leaf, aggregate];
    TwoLines(level, leaf, aggregate);
    calc {
      FormatMessage(level, leaf, [aggregate]);
      Header(level) + Join("\n", Lines(level, LeavesFirst(all)));
      Header(level) + (Bullet(level, leaf) + "\n" + Bullet(level, aggregate));
    }
  }

  /** The indentation of the first two levels, spelled out. */
  lemma ShallowLayout(m: string)
    ensures Header(0) == "Expected any of the following:\n"
    ensures Header(1) == Tab + "- " + "Expected any of the following:\n"
    ensures LeafLine(0, m) == Tab + "- " + m
    ensures LeafLine(1, m) == Tab + Tab + "- " + m
  {
    assert Repeat(Tab, 1) == Tab;
    assert Repeat(Tab, 2) == Tab + Tab;
  }

  /**
   * Two leaves render as a flat two-bullet list (the first test of the aggregate, for any
   * two messages).
   */
  lemma FlatExample(m1: string, m2: string)
    ensures Message(FromFailedAssertions(Leaf(m1), [Leaf(m2)]))
            == "Expected any of the following:\n" +
               (Tab + "- " + m1) + "\n" +
               (Tab + "- " + m2)
  {
    TwoLeaves(0, Leaf(m1), Leaf(m2));
    ShallowLayout(m1);
    ShallowLayout(m2);
  }

  /** Two leaves one level down. */
  lemma NestedTwoLeaves(m1: string, m2: string)
    ensures FormatMessage(1, Leaf(m1), [Leaf(m2)])
            == (Tab + "- " + "Expected any of the following:\n") +
               (Tab + Tab + "- " + m1) + "\n" +
               (Tab + Tab + "- " + m2)
  {
    TwoLeaves(1, Leaf(m1), Leaf(m2));
    ShallowLayout(m1);
    ShallowLayout(m2);
  }

  /**
   * A leaf and a nested aggregate of two leaves render leaf first, in either call order (the
   * other two tests, for any three messages).
   */
  lemma NestedExample(m1: string, m2: string, m3: string)
    ensures var e12 := FromFailedAssertions(Leaf(m1), [Leaf(m2)]);
            var expected := "Expected any of the following:\n" +
                            (Tab + "- " + m3) + "\n" +
                            ((Tab + "- " + "Expected any of the following:\n") +
                             (Tab + Tab + "- " + m1) + "\n" +
                             (Tab + Tab + "- " + m2));
            && Message(FromFailedAssertions(Leaf(m3), [e12])) == expected
            && Message(FromFailedAssertions(e12, [Leaf(m3)])) == expected
  {
    var e1, e2, e3 := Leaf(m1), Leaf(m2), Leaf(m3);
    var e12 := FromFailedAssertions(e1, [e2]);
    NestedTwoLeaves(m1, m2);
    LeafThenAggregate(0, e3, e12);
    ShallowLayout(m3);
    LeafAndAggregateInEitherOrder(0, e3, e12);
  }
}
