/** Round robin: how the ticks are shared among the tasks of the highest ready priority. */
module Slicing {

  /** A task in its list: what is left of its time slice, and the whole slice. */
  datatype Turn = Turn(id: nat, rem: nat, init: nat)

  ghost predicate Valid(q: seq<Turn>) {
    && q != []
    && (forall i :: 0 <= i < |q| ==> 1 <= q[i].rem <= q[i].init)
    && (forall i, j :: 0 <= i < j < |q| ==> q[i].id != q[j].id)
  }

  function Fresh(t: Turn): Turn {
    t.(rem := t.init)
  }

  /** A tick: the first task pays for it, and goes to the end with a new slice when its own is used up. */
  function Tick(q: seq<Turn>): (r: seq<Turn>)
    requires q != []
    ensures |r| == |q|
  {
    if q[0].rem == 1 then q[1..] + [Fresh(q[0])] else [q[0].(rem := if q[0].rem == 0 then 0 else q[0].rem - 1)] + q[1..]
  }

  function Ticks(q: seq<Turn>, n: nat): (r: seq<Turn>)
    requires q != []
    ensures |r| == |q|
    decreases n
  {
    if n == 0 then q else Ticks(Tick(q), n - 1)
  }

  /** How many of the next n ticks the task pays for. */
  function Got(q: seq<Turn>, n: nat, id: nat): nat
    requires q != []
    decreases n
  {
    if n == 0 then 0 else (if q[0].id == id then 1 else 0) + Got(Tick(q), n - 1, id)
  }

  function SumRem(q: seq<Turn>): nat {
    if q == [] then 0 else q[0].rem + SumRem(q[1..])
  }

  function SumInit(q: seq<Turn>): nat {
    if q == [] then 0 else q[0].init + SumInit(q[1..])
  }

  function AllFresh(q: seq<Turn>): (r: seq<Turn>)
    ensures |r| == |q|
  {
    if q == [] then [] else [Fresh(q[0])] + AllFresh(q[1..])
  }

  /** remaining_tick stays in 1..init_tick. */
  lemma TickValid(q: seq<Turn>)
    requires Valid(q)
    ensures Valid(Tick(q))
  {}

  lemma {:induction false} TicksAdd(q: seq<Turn>, a: nat, b: nat, id: nat)
    requires q != []
    ensures Ticks(q, a + b) == Ticks(Ticks(q, a), b)
    ensures Got(q, a + b, id) == Got(q, a, id) + Got(Ticks(q, a), b, id)
    decreases a
  {
    if a > 0 {
      TicksAdd(Tick(q), a - 1, b, id);
      assert a + b - 1 == a - 1 + b;
    }
  }

  /** The first task keeps the processor until its slice is used up. */
  lemma {:induction false} HeadRuns(q: seq<Turn>, n: nat, id: nat)
    requires Valid(q) && n < q[0].rem
    ensures Ticks(q, n) == [q[0].(rem := q[0].rem - n)] + q[1..]
    ensures Got(q, n, id) == if q[0].id == id then n else 0
    decreases n
  {
    if n > 0 {
      TickValid(q);
      HeadRuns(Tick(q), n - 1, id);
    }
  }

  lemma HeadEnds(q: seq<Turn>, id: nat)
    requires Valid(q)
    ensures Ticks(q, q[0].rem) == q[1..] + [Fresh(q[0])]
    ensures Got(q, q[0].rem, id) == if q[0].id == id then q[0].rem else 0
  {
    HeadRuns(q, q[0].rem - 1, id);
    TicksAdd(q, q[0].rem - 1, 1, id);
    var last := Ticks(q, q[0].rem - 1);
    assert Ticks(last, 1) == Tick(last);
    assert Got(last, 1, id) == (if last[0].id == id then 1 else 0) + Got(Tick(last), 0, id);
  }

  ghost function RemOf(q: seq<Turn>, id: nat): nat {
    if q == [] then 0 else if q[0].id == id then q[0].rem else RemOf(q[1..], id)
  }

  /** The tasks of a take their turns one after the other; those of b, who wait behind them, get nothing. */
  lemma {:induction false} Turns(a: seq<Turn>, b: seq<Turn>, id: nat)
    requires Valid(a + b)
    ensures Ticks(a + b, SumRem(a)) == b + AllFresh(a)
    ensures Got(a + b, SumRem(a), id) == RemOf(a, id)
    decreases |a|
  {
    if a == [] {
      assert a + b == b;
    } else {
      var c := b + [Fresh(a[0])];
      OneTurn(a, b, id);
      Turns(a[1..], c, id);
      Join(a + b, a[0].rem, a[1..] + c, SumRem(a[1..]), c + AllFresh(a[1..]), id);
      RemOnce(a + b, a, id);
      FreshBehind(a, b);
    }
  }

  lemma Join(q: seq<Turn>, n: nat, r: seq<Turn>, m: nat, s: seq<Turn>, id: nat)
    requires q != [] && Ticks(q, n) == r && Ticks(r, m) == s
    ensures Ticks(q, n + m) == s && Got(q, n + m, id) == Got(q, n, id) + Got(r, m, id)
  {
    TicksAdd(q, n, m, id);
  }

  lemma FreshBehind(a: seq<Turn>, b: seq<Turn>)
    requires a != []
    ensures (b + [Fresh(a[0])]) + AllFresh(a[1..]) == b + AllFresh(a)
  {}

  lemma OneTurn(a: seq<Turn>, b: seq<Turn>, id: nat)
    requires Valid(a + b) && a != []
    ensures var r := a[1..] + (b + [Fresh(a[0])]);
            Valid(r) && Ticks(a + b, a[0].rem) == r && Got(a + b, a[0].rem, id) == if a[0].id == id then a[0].rem else 0
  {
    var q := a + b;
    HeadEnds(q, id);
    Rotated(q);
    assert q[1..] + [Fresh(q[0])] == a[1..] + (b + [Fresh(a[0])]);
  }

  lemma Rotated(q: seq<Turn>)
    requires Valid(q)
    ensures Valid(q[1..] + [Fresh(q[0])])
  {}

  lemma RemOnce(q: seq<Turn>, a: seq<Turn>, id: nat)
    requires Valid(q) && a != [] && a <= q
    ensures a[0].id == id ==> RemOf(a[1..], id) == 0
  {
    if a[0].id == id {
      NoRem(a[1..], id);
    }
  }

  lemma {:induction false} NoRem(a: seq<Turn>, id: nat)
    requires forall i :: 0 <= i < |a| ==> a[i].id != id
    ensures RemOf(a, id) == 0
  {
    if a != [] {
      NoRem(a[1..], id);
    }
  }

  /** Everybody but the first task, which is at work on its slice, has a whole slice in front of it. */
  ghost predicate OthersFresh(q: seq<Turn>) {
    forall i :: 1 <= i < |q| ==> q[i].rem == q[i].init
  }

  ghost function InitOf(q: seq<Turn>, id: nat): nat {
    if q == [] then 0 else if q[0].id == id then q[0].init else InitOf(q[1..], id)
  }

  /** In a round, everybody uses up what was left of its slice. */
  lemma Round(q: seq<Turn>, id: nat)
    requires Valid(q)
    ensures Ticks(q, SumRem(q)) == AllFresh(q) && Got(q, SumRem(q), id) == RemOf(q, id)
  {
    assert q + [] == q;
    Turns(q, [], id);
  }

  lemma {:induction false} FreshFacts(q: seq<Turn>)
    ensures forall i :: 0 <= i < |q| ==> AllFresh(q)[i] == Fresh(q[i])
    decreases |q|
  {
    if q != [] {
      FreshFacts(q[1..]);
    }
  }

  lemma {:induction false} AllFull(q: seq<Turn>, id: nat)
    requires forall i :: 0 <= i < |q| ==> q[i].rem == q[i].init
    ensures SumRem(q) == SumInit(q) && RemOf(q, id) == InitOf(q, id) && AllFresh(q) == q
  {
    if q != [] {
      AllFull(q[1..], id);
    }
  }

  /** A window as long as all slices together gives each task exactly its slice, and then everything is as before. */
  lemma WindowExact(q: seq<Turn>, id: nat)
    requires Valid(q) && OthersFresh(q)
    ensures Got(q, SumInit(q), id) == InitOf(q, id) && Ticks(q, SumInit(q)) == q
  {
    var again := q[0].init - q[0].rem;
    WholeSlices(q, id);
    Round(q, id);
    BackToStart(AllFresh(q), q, id);
    Join(q, SumRem(q), AllFresh(q), again, q, id);
  }

  lemma WholeSlices(q: seq<Turn>, id: nat)
    requires Valid(q) && OthersFresh(q)
    ensures AllFresh(q) == [Fresh(q[0])] + q[1..] && Valid(AllFresh(q))
    ensures SumInit(q) == SumRem(q) + (q[0].init - q[0].rem)
    ensures InitOf(q, id) == RemOf(q, id) + if q[0].id == id then q[0].init - q[0].rem else 0
  {
    AllFull(q[1..], id);
    FreshValid(q);
  }

  lemma BackToStart(f: seq<Turn>, q: seq<Turn>, id: nat)
    requires Valid(q) && Valid(f) && f == [Fresh(q[0])] + q[1..]
    ensures var again := q[0].init - q[0].rem;
            Ticks(f, again) == q && Got(f, again, id) == if q[0].id == id then again else 0
  {
    HeadRuns(f, q[0].init - q[0].rem, id);
    assert [q[0]] + q[1..] == q;
  }

  lemma FreshValid(q: seq<Turn>)
    requires Valid(q)
    ensures Valid(AllFresh(q))
  {
    FreshFacts(q);
  }

  lemma {:induction false} Slack(q: seq<Turn>)
    requires forall i :: 0 <= i < |q| ==> q[i].rem <= q[i].init
    ensures SumRem(q) <= SumInit(q)
    ensures SumRem(q) == SumInit(q) ==> forall i :: 0 <= i < |q| ==> q[i].rem == q[i].init
  {
    if q != [] {
      Slack(q[1..]);
      assert forall i :: 1 <= i < |q| ==> q[i] == q[1..][i - 1];
    }
  }

  lemma {:induction false} GotGrows(q: seq<Turn>, n: nat, m: nat, id: nat)
    requires q != [] && n <= m
    ensures Got(q, n, id) <= Got(q, m, id)
    decreases n
  {
    if n > 0 {
      GotGrows(Tick(q), n - 1, m - 1, id);
    }
  }

  lemma BrokenSlices(q: seq<Turn>)
    requires Valid(q) && !OthersFresh(q)
    ensures SumInit(q) - SumRem(q) > q[0].init - q[0].rem
  {
    var rest := q[1..];
    Slack(rest);
    var i :| 1 <= i < |q| && q[i].rem != q[i].init;
    assert rest[i - 1] == q[i];
  }

  /** If somebody else's slice was already broken into, the first task gets more than its own. */
  lemma WindowUnfair(q: seq<Turn>)
    requires Valid(q) && !OthersFresh(q)
    ensures Got(q, SumInit(q), q[0].id) > q[0].init
  {
    var rest := SumInit(q) - SumRem(q);
    BrokenSlices(q);
    Round(q, q[0].id);
    SecondTurn(AllFresh(q), q, rest);
    TwoParts(q, SumRem(q), AllFresh(q), rest, SumInit(q), q[0].id);
    FirstRem(q);
  }

  lemma TwoParts(q: seq<Turn>, n: nat, r: seq<Turn>, m: nat, window: nat, id: nat)
    requires q != [] && Ticks(q, n) == r && window == n + m
    ensures Got(q, window, id) == Got(q, n, id) + Got(r, m, id)
  {
    TicksAdd(q, n, m, id);
  }

  lemma FirstRem(q: seq<Turn>)
    requires q != []
    ensures RemOf(q, q[0].id) == q[0].rem
  {}

  lemma SecondTurn(f: seq<Turn>, q: seq<Turn>, n: nat)
    requires Valid(q) && f == AllFresh(q) && n > q[0].init - q[0].rem
    ensures Got(f, n, q[0].id) > q[0].init - q[0].rem
  {
    FreshValid(q);
    HeadGets(f, q[0].init - q[0].rem + 1);
    GotGrows(f, q[0].init - q[0].rem + 1, n, q[0].id);
  }

  lemma HeadGets(q: seq<Turn>, n: nat)
    requires Valid(q) && n <= q[0].rem
    ensures Got(q, n, q[0].id) == n
  {
    if n < q[0].rem {
      HeadRuns(q, n, q[0].id);
    } else {
      HeadEnds(q, q[0].id);
    }
  }

  lemma {:induction false} InitIs(q: seq<Turn>, i: nat)
    requires Valid(q) && i < |q|
    ensures InitOf(q, q[i].id) == q[i].init
  {
    if i > 0 {
      InitIs(q[1..], i - 1);
    }
  }

  /**
   Exactly when the time slicing is fair: a window of all slices together gives each task its own slice if and only
   if every task but the first has a whole slice left at its start.
   */
  lemma FairIff(q: seq<Turn>)
    requires Valid(q)
    ensures (forall i :: 0 <= i < |q| ==> Got(q, SumInit(q), q[i].id) == q[i].init) <==> OthersFresh(q)
  {
    if OthersFresh(q) {
      forall i | 0 <= i < |q| ensures Got(q, SumInit(q), q[i].id) == q[i].init {
        WindowExact(q, q[i].id);
        InitIs(q, i);
      }
    } else {
      WindowUnfair(q);
    }
  }

  /** Ticks alone keep the slices whole, so that every window from then on is fair. */
  lemma {:induction false} StaysFresh(q: seq<Turn>, n: nat)
    requires Valid(q) && OthersFresh(q)
    ensures Valid(Ticks(q, n)) && OthersFresh(Ticks(q, n))
    decreases n
  {
    if n > 0 {
      TickValid(q);
      StaysFresh(Tick(q), n - 1);
    }
  }
}
