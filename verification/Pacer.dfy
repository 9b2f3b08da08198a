/** Constant-rate pacing: what fills one emission slot, and how much cover a burst of real
    traffic may be followed by. */
module Pacers {
  import opened Results

  datatype ShapeMode = Cbr | Adaptive
  datatype Emit = Real | Cover | Idle
  datatype CoverBudget = CoverBudget(perTrigger: nat, ratio: real)
  datatype Shape = Shape(mode: ShapeMode, cooldown: nat, budget: CoverBudget)

  datatype State = State(lastReal: Option<int>, allowance: real)

  const FRESH := State(None, 0.0)

  function Since(now: int, t: int): nat {
    if now >= t then now - t else 0
  }

  function Decide(c: Shape, s: State, hasReal: bool, now: int): (Emit, State) {
    if hasReal then
      var renewed := s.lastReal == None || Since(now, s.lastReal.value) >= c.cooldown;
      var allowance := if renewed then c.budget.perTrigger as real else s.allowance;
      (Real, State(Some(now), allowance + c.budget.ratio))
    else if c.mode == Cbr then
      (Cover, s)
    else if s.lastReal != None && Since(now, s.lastReal.value) < c.cooldown && s.allowance >= 1.0 then
      (Cover, s.(allowance := s.allowance - 1.0))
    else
      (Idle, s)
  }

  // ── Histories ──

  /** One emission slot: whether a real packet was queued, and when. */
  datatype Slot = Slot(hasReal: bool, now: int)

  function Front(slots: seq<Slot>): seq<Slot>
    requires slots != []
  {
    slots[..|slots| - 1]
  }

  function Final(slots: seq<Slot>): Slot
    requires slots != []
  {
    slots[|slots| - 1]
  }

  predicate Monotone(slots: seq<Slot>) {
    forall i, j | 0 <= i <= j < |slots| :: slots[i].now <= slots[j].now
  }

  function After(c: Shape, slots: seq<Slot>): State {
    if slots == [] then FRESH
    else Decide(c, After(c, Front(slots)), Final(slots).hasReal, Final(slots).now).1
  }

  /** What the last slot of a history emits. */
  function Emitted(c: Shape, slots: seq<Slot>): Emit
    requires slots != []
  {
    Decide(c, After(c, Front(slots)), Final(slots).hasReal, Final(slots).now).0
  }

  function LastReal(slots: seq<Slot>): Option<int> {
    if slots == [] then None
    else if Final(slots).hasReal then Some(Final(slots).now)
    else LastReal(Front(slots))
  }

  /** The last slot starts an activity burst: a real packet with none in the cooldown before. */
  predicate IsTrigger(c: Shape, slots: seq<Slot>)
    requires slots != []
  {
    && Final(slots).hasReal
    && (match LastReal(Front(slots))
        case None => true
        case Some(t) => Since(Final(slots).now, t) >= c.cooldown)
  }

  function Triggers(c: Shape, slots: seq<Slot>): nat {
    if slots == [] then 0 else Triggers(c, Front(slots)) + if IsTrigger(c, slots) then 1 else 0
  }

  function Reals(slots: seq<Slot>): nat {
    if slots == [] then 0 else Reals(Front(slots)) + if Final(slots).hasReal then 1 else 0
  }

  function Covers(c: Shape, slots: seq<Slot>): nat {
    if slots == [] then 0 else Covers(c, Front(slots)) + if Emitted(c, slots) == Cover then 1 else 0
  }

  function BurstReals(c: Shape, slots: seq<Slot>): nat {
    if slots == [] then 0
    else if IsTrigger(c, slots) then 1
    else BurstReals(c, Front(slots)) + if Final(slots).hasReal then 1 else 0
  }

  function BurstCovers(c: Shape, slots: seq<Slot>): nat {
    if slots == [] || IsTrigger(c, slots) then 0
    else BurstCovers(c, Front(slots)) + if Emitted(c, slots) == Cover then 1 else 0
  }

  function Product(r: real, n: nat): real {
    r * n as real
  }

  /** `r` added up `n` times: the product, built the way an allowance grows. */
  function Times(r: real, n: nat): real {
    if n == 0 then 0.0 else Times(r, n - 1) + r
  }

  lemma {:induction false} TimesIsProduct(r: real, n: nat)
    ensures Times(r, n) == Product(r, n)
  {
    if n > 0 {
      TimesIsProduct(r, n - 1);
      assert r * n as real == r * (n - 1) as real + r;
    }
  }

  lemma {:induction false} TimesMonotone(r: real, m: nat, n: nat)
    requires r >= 0.0 && m <= n
    ensures 0.0 <= Times(r, m) <= Times(r, n)
  {
    if n > 0 {
      TimesMonotone(r, if m == n then m - 1 else m, n - 1);
    }
  }

  lemma TimesOne(r: real)
    ensures Times(r, 1) == r
  {
    assert Times(r, 0) == 0.0;
  }

  /** What the burst so far may spend on cover. */
  function Earned(c: Shape, slots: seq<Slot>): real {
    c.budget.perTrigger as real + Times(c.budget.ratio, BurstReals(c, slots))
  }

  // ── The pacer keeps the books of its history ──

  lemma {:induction false} PacerTally(c: Shape, slots: seq<Slot>)
    ensures After(c, slots).lastReal == LastReal(slots)
    ensures c.mode == Adaptive && LastReal(slots) != None ==>
              After(c, slots).allowance == Earned(c, slots) - BurstCovers(c, slots) as real
    ensures c.mode == Adaptive && LastReal(slots) == None ==> BurstCovers(c, slots) == 0
  {
    if slots != [] {
      PacerTally(c, Front(slots));
      TimesOne(c.budget.ratio);
    }
  }

  /** Cover is owed: real traffic within the cooldown, and a whole packet still earned. */
  predicate Owed(c: Shape, slots: seq<Slot>, now: int) {
    match LastReal(slots)
    case None => false
    case Some(t) => Since(now, t) < c.cooldown && BurstCovers(c, slots) as real + 1.0 <= Earned(c, slots)
  }

  /** What a slot emits, told from the history alone. */
  lemma EmitsByHistory(c: Shape, slots: seq<Slot>, next: Slot)
    ensures var e := Emitted(c, slots + [next]);
            && (e == Real <==> next.hasReal)
            && (e == Cover <==> !next.hasReal && (c.mode == Cbr || Owed(c, slots, next.now)))
            && (c.mode == Cbr ==> e != Idle)
  {
    PacerTally(c, slots);
    assert Front(slots + [next]) == slots;
  }

  // ── The cover budget ──

  /** The covers of a burst never exceed what it has earned. */
  predicate WithinBudget(c: Shape, slots: seq<Slot>) {
    LastReal(slots) != None ==> BurstCovers(c, slots) as real <= Earned(c, slots)
  }

  lemma {:induction false} BurstIsBudgeted(c: Shape, slots: seq<Slot>)
    requires c.mode == Adaptive && c.budget.ratio >= 0.0
    ensures WithinBudget(c, slots)
  {
    if slots != [] {
      BurstIsBudgeted(c, Front(slots));
      TimesMonotone(c.budget.ratio, 0, BurstReals(c, slots));
      assert slots == Front(slots) + [Final(slots)];
      EmitsByHistory(c, Front(slots), Final(slots));
    }
  }

  function Repeat(n: nat): seq<Slot> {
    if n == 0 then [] else Repeat(n - 1) + [Slot(true, 0)]
  }

  lemma {:induction false} Repeated(c: Shape, n: nat)
    ensures forall i | 0 <= i < |Repeat(n)| :: Repeat(n)[i].now == 0
    ensures LastReal(Repeat(n)) == if n == 0 then None else Some(0)
    ensures c.cooldown > 0 ==> BurstReals(c, Repeat(n)) == n
    ensures BurstCovers(c, Repeat(n)) == 0
  {
    if n > 0 {
      Repeated(c, n - 1);
      var slots := Repeat(n);
      assert Front(slots) == Repeat(n - 1);
      OneMoreReal(c, slots);
    }
  }

  lemma OneMoreReal(c: Shape, slots: seq<Slot>)
    requires slots != [] && Final(slots) == Slot(true, 0)
    requires LastReal(Front(slots)) == None || LastReal(Front(slots)) == Some(0)
    requires LastReal(Front(slots)) == None ==> BurstReals(c, Front(slots)) == 0
    requires BurstCovers(c, Front(slots)) == 0
    ensures LastReal(slots) == Some(0)
    ensures c.cooldown > 0 ==> BurstReals(c, slots) == BurstReals(c, Front(slots)) + 1
    ensures BurstCovers(c, slots) == 0
  {
    assert Emitted(c, slots) == Real;
  }

  /** The ratio is not validated, and a negative one breaks the budget: bursts of real packets
      take back what earlier cover was allowed to spend. The budget holds of every run
      exactly when the ratio is not negative, or no burst outlives its first packet. */
  lemma BudgetHoldsIff(c: Shape)
    requires c.mode == Adaptive
    ensures (forall slots | Monotone(slots) :: WithinBudget(c, slots))
       <==> (c.budget.ratio >= 0.0
             || (c.cooldown == 0 && c.budget.perTrigger as real + c.budget.ratio >= 0.0))
  {
    if c.budget.ratio >= 0.0 {
      forall slots | Monotone(slots) ensures WithinBudget(c, slots) {
        BurstIsBudgeted(c, slots);
      }
    } else if c.cooldown == 0 {
      TimesOne(c.budget.ratio);
      forall slots
        ensures LastReal(slots) != None ==>
          (WithinBudget(c, slots) <==> c.budget.perTrigger as real + c.budget.ratio >= 0.0)
      {
        NoCooldown(c, slots);
      }
      Repeated(c, 1);
      assert Monotone(Repeat(1));
    } else {
      var n := Overdraft(c.budget.perTrigger, c.budget.ratio);
      Repeated(c, n);
      assert Monotone(Repeat(n)) && !WithinBudget(c, Repeat(n));
    }
  }

  lemma {:induction false} NoCooldown(c: Shape, slots: seq<Slot>)
    requires c.mode == Adaptive && c.cooldown == 0
    ensures BurstCovers(c, slots) == 0
    ensures BurstReals(c, slots) == if LastReal(slots) == None then 0 else 1
  {
    if slots != [] {
      NoCooldown(c, Front(slots));
      assert slots == Front(slots) + [Final(slots)];
      EmitsByHistory(c, Front(slots), Final(slots));
    }
  }

  /** Enough packets at a negative ratio overdraw any budget. */
  lemma Overdraft(budget: nat, ratio: real) returns (n: nat)
    requires ratio < 0.0
    ensures n > 0 && budget as real + Times(ratio, n) < 0.0
  {
    var q := budget as real / -ratio;
    Quotient(budget as real, -ratio);
    n := q.Floor + 1;
    TimesIsProduct(ratio, n);
    ScaleKeepsOrder(q, n as real, -ratio);
  }

  lemma Quotient(a: real, b: real)
    requires a >= 0.0 && b > 0.0
    ensures a / b >= 0.0 && a / b * b == a
  {}

  lemma ScaleKeepsOrder(a: real, b: real, r: real)
    requires a < b && r > 0.0
    ensures a * r < b * r
  {}

  // ── Over a whole run ──

  /** Time from the first slot to the last. */
  function Span(slots: seq<Slot>): int {
    if slots == [] then 0 else Final(slots).now - slots[0].now
  }

  /** The time of the latest trigger. */
  function LastTrigger(c: Shape, slots: seq<Slot>): Option<int> {
    if slots == [] then None
    else if IsTrigger(c, slots) then Some(Final(slots).now)
    else LastTrigger(c, Front(slots))
  }

  /** So many triggers, each a cooldown after the one before, fit in this time. */
  predicate Spaced(triggers: nat, cooldown: nat, time: int) {
    (triggers - 1) * cooldown <= time
  }

  lemma {:induction false} TriggersApart(c: Shape, slots: seq<Slot>)
    requires Monotone(slots)
    ensures LastReal(slots) == None <==> Triggers(c, slots) == 0
    ensures LastReal(slots) == None <==> LastTrigger(c, slots) == None
    ensures LastReal(slots) != None ==>
              && LastTrigger(c, slots).value <= LastReal(slots).value <= Final(slots).now
              && Spaced(Triggers(c, slots), c.cooldown, LastTrigger(c, slots).value - slots[0].now)
  {
    if slots != [] {
      var front := Front(slots);
      TriggersApart(c, front);
      if front != [] {
        assert front[0] == slots[0];
        assert Final(front).now <= Final(slots).now;
        OneMore(Triggers(c, front) - 1, c.cooldown);
      }
    }
  }

  lemma OneMore(k: int, d: nat)
    ensures (k + 1) * d == k * d + d
  {}

  /** Triggers over a span are at most one, plus one per whole cooldown. */
  lemma TriggersBounded(c: Shape, slots: seq<Slot>)
    requires Monotone(slots) && c.cooldown > 0
    ensures Triggers(c, slots) <= Span(slots) / c.cooldown + 1
  {
    TriggersApart(c, slots);
    if slots != [] {
      assert slots[0].now <= Final(slots).now;
    }
    if Triggers(c, slots) > 0 {
      SpacedFits(Triggers(c, slots), c.cooldown, LastTrigger(c, slots).value - slots[0].now, Span(slots));
    } else {
      NotNegative(Span(slots), c.cooldown);
    }
  }

  lemma SpacedFits(triggers: nat, cooldown: nat, time: int, span: int)
    requires triggers > 0 && cooldown > 0 && Spaced(triggers, cooldown, time) && time <= span && 0 <= span
    ensures triggers <= span / cooldown + 1
  {
    AtMostQuotient(triggers - 1, cooldown, span);
  }

  lemma NotNegative(span: int, cooldown: nat)
    requires span >= 0 && cooldown > 0
    ensures span / cooldown >= 0
  {}

  lemma AtMostQuotient(k: nat, d: nat, n: nat)
    requires d > 0 && k * d <= n
    ensures k <= n / d
  {
    var q := n / d;
    assert n < (q + 1) * d;
    ProductOrder(if k > q then q + 1 else k, k, d);
  }

  lemma ProductOrder(a: nat, b: nat, d: nat)
    requires a <= b
    ensures a * d <= b * d
  {}

  lemma {:induction false} CoverSplit(c: Shape, slots: seq<Slot>)
    requires c.mode == Adaptive && c.budget.ratio >= 0.0
    ensures Covers(c, slots) as real
         <= Times(c.budget.perTrigger as real, Triggers(c, slots)) + Times(c.budget.ratio, Reals(slots))
            - (if LastReal(slots) == None then 0.0 else Earned(c, slots) - BurstCovers(c, slots) as real)
    ensures LastReal(slots) == None ==> Covers(c, slots) == 0
  {
    if slots != [] {
      var front := Front(slots);
      CoverSplit(c, front);
      BurstIsBudgeted(c, front);
      assert slots == front + [Final(slots)];
      EmitsByHistory(c, front, Final(slots));
      TimesOne(c.budget.ratio);
    }
  }

  lemma CoverByTriggers(c: Shape, slots: seq<Slot>, most: nat)
    requires c.mode == Adaptive && c.budget.ratio >= 0.0 && Triggers(c, slots) <= most
    ensures Covers(c, slots) as real <= Times(c.budget.perTrigger as real, most) + Times(c.budget.ratio, Reals(slots))
  {
    CoverSplit(c, slots);
    BurstIsBudgeted(c, slots);
    TimesMonotone(c.budget.perTrigger as real, Triggers(c, slots), most);
    TimesMonotone(c.budget.ratio, 0, Reals(slots));
  }

  /** Over any run with monotone time, the total cover is bounded by the span, the cooldown
      and the real packets. */
  lemma TotalCoverBounded(c: Shape, slots: seq<Slot>)
    requires c.mode == Adaptive && c.budget.ratio >= 0.0 && c.cooldown > 0 && Monotone(slots)
    ensures Covers(c, slots) as real
         <= Product(c.budget.perTrigger as real, Span(slots) / c.cooldown + 1) + Product(c.budget.ratio, Reals(slots))
  {
    TriggersBounded(c, slots);
    var most := Span(slots) / c.cooldown + 1;
    CoverByTriggers(c, slots, most);
    TimesIsProduct(c.budget.perTrigger as real, most);
    TimesIsProduct(c.budget.ratio, Reals(slots));
  }

  // ── The pacer itself ──

  class Pacer {
    const shape: Shape
    var lastReal: Option<int>
    var allowance: real
    ghost var history: seq<Slot>

    ghost predicate Valid() reads this {
      State(lastReal, allowance) == After(shape, history)
    }

    constructor (mode: ShapeMode, cooldown: nat, budget: CoverBudget)
      ensures Valid() && shape == Shape(mode, cooldown, budget) && history == []
    {
      shape := Shape(mode, cooldown, budget);
      lastReal, allowance, history := None, 0.0, [];
    }

    method NextEmit(hasReal: bool, now: int) returns (emit: Emit)
      requires Valid()
      modifies this
      ensures Valid() && history == old(history) + [Slot(hasReal, now)]
      ensures emit == Real <==> hasReal
      ensures emit == Cover <==> !hasReal && (shape.mode == Cbr || old(Owed(shape, history, now)))
      ensures Reals(history) == old(Reals(history)) + if emit == Real then 1 else 0
      ensures Covers(shape, history) == old(Covers(shape, history)) + if emit == Cover then 1 else 0
    {
      EmitsByHistory(shape, history, Slot(hasReal, now));
      assert Front(history + [Slot(hasReal, now)]) == history;
      history := history + [Slot(hasReal, now)];
      if hasReal {
        var newTrigger := match lastReal
          case Some(t) => Since(now, t) >= shape.cooldown
          case None => true;
        if newTrigger {
          allowance := shape.budget.perTrigger as real;
        }
        allowance := allowance + shape.budget.ratio;
        lastReal := Some(now);
        return Real;
      }
      if shape.mode == Cbr {
        return Cover;
      }
      if lastReal != None && Since(now, lastReal.value) < shape.cooldown && allowance >= 1.0 {
        allowance := allowance - 1.0;
        return Cover;
      }
      return Idle;
    }
  }
}
