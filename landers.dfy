/**
 * The `lander` class of lander.h: one vehicle's physical state, its guarded
 * flow-rate setter, its one-step descent update, its derived status and the
 * five-key "outranks" relation used as the heap's ordering.
 *
 * Every use of a lander in the program copies it (heap slots, the value
 * returned by getHighestPriority, the local that is stepped), so a lander is
 * modelled as a value; the member functions that update fields in place
 * become a function or method returning the updated value.
 */
module Landers {
  import Orderings

  /** Lunar gravity (NUM) and the fixed time step (TIME) of lander::simulate. */
  const Gravity: real := 1.62
  const TimeStep: real := 1.0

  /** The velocity at or below which a touchdown counts as a crash. */
  const CrashVelocity: real := -2.0

  datatype Lander = Lander(
    flowRate: real,
    velocity: real,
    altitude: real,
    fuel: real,
    stillLanding: bool,
    id: int,
    timesSimulated: nat,
    mass: real,
    maxFuelConsumptionRate: real,
    maxThrust: real)

  /** lander::lander: a fresh lander is airborne, at rest, with the throttle closed and no steps taken. */
  function NewLander(mass: real, maxThrust: real, maxFuelConsumptionRate: real,
                     altitude: real, fuel: real, id: int): (l: Lander)
    ensures Status(l) == 'a' && l.timesSimulated == 0
    ensures l.velocity == 0.0 && l.flowRate == 0.0
    ensures l.altitude == altitude && l.fuel == fuel && l.id == id
    ensures l.mass == mass && l.maxThrust == maxThrust && l.maxFuelConsumptionRate == maxFuelConsumptionRate
  {
    Lander(0.0, 0.0, altitude, fuel, true, id, 0, mass, maxFuelConsumptionRate, maxThrust)
  }

  /**
   * lander::get_status: 'a' while airborne; once down, 'c' for a touchdown at
   * CrashVelocity or faster, otherwise 'l'. Derived from stillLanding and
   * velocity only, never stored.
   */
  function Status(l: Lander): (s: char)
    ensures s == 'a' || s == 'c' || s == 'l'
    ensures s == 'a' <==> l.stillLanding
    ensures s == 'c' <==> !l.stillLanding && l.velocity <= CrashVelocity
  {
    if l.stillLanding then 'a'
    else if l.velocity <= CrashVelocity then 'c'
    else 'l'
  }

  /**
   * lander::change_flow_rate: the new rate is accepted (true) exactly when it
   * lies in [0, 1] and fuel is left; a rejected call changes nothing.
   */
  function ChangeFlowRate(l: Lander, r: real): (res: (bool, Lander))
    ensures res.0 <==> 0.0 <= r <= 1.0 && 0.0 < l.fuel
    ensures res.0 ==> res.1 == l.(flowRate := r)
    ensures !res.0 ==> res.1 == l
    ensures 0.0 <= l.flowRate <= 1.0 ==> 0.0 <= res.1.flowRate <= 1.0
  {
    if 0.0 <= r && r <= 1.0 && 0.0 < l.fuel then (true, l.(flowRate := r)) else (false, l)
  }

  function Abs(x: real): real {
    if x < 0.0 then -x else x
  }

  /**
   * A lander that can keep being stepped: while airborne its dry mass is
   * positive and mass plus fuel (the divisor of the thrust term) is positive.
   */
  predicate Flyable(l: Lander) {
    l.stillLanding ==> 0.0 < l.mass && 0.0 < l.mass + l.fuel
  }

  /**
   * lander::simulate, as a function of the old state. Physics over the reals:
   * the exact IEEE-754 values are not modelled, only the structural facts.
   */
  function Step(l: Lander): (r: Lander)
    requires l.stillLanding ==> 0.0 < l.mass + l.fuel
    ensures !l.stillLanding ==> r == l
    ensures l.stillLanding ==> r.timesSimulated == l.timesSimulated + 1
    ensures l.stillLanding ==> 0.0 <= r.altitude && 0.0 <= r.fuel
    ensures l.stillLanding ==> (r.stillLanding <==> 0.0 < l.altitude + r.velocity)
    ensures r.id == l.id && r.mass == l.mass && r.maxThrust == l.maxThrust
    ensures r.maxFuelConsumptionRate == l.maxFuelConsumptionRate && r.flowRate == l.flowRate
    ensures r.stillLanding ==> l.stillLanding
    ensures Flyable(l) ==> Flyable(r)
  {
    if !l.stillLanding then l
    else
      var v := TimeStep * ((l.flowRate * l.maxThrust) / (l.mass + l.fuel)) - Gravity;
      var velocity := l.velocity + v;
      var altitude := l.altitude + TimeStep * velocity;
      var burnt := l.fuel - TimeStep * l.maxFuelConsumptionRate * Abs(v);
      l.(velocity := velocity,
         altitude := if altitude <= 0.0 then 0.0 else altitude,
         stillLanding := 0.0 < altitude,
         fuel := if burnt < 0.0 then 0.0 else burnt,
         timesSimulated := l.timesSimulated + 1)
  }

  /** lander::simulate, updating the fields one after another as the source does. */
  method Simulate(l: Lander) returns (r: Lander)
    requires l.stillLanding ==> 0.0 < l.mass + l.fuel
    ensures r == Step(l)
  {
    r := l;
    if r.stillLanding {
      var v := TimeStep * ((r.flowRate * r.maxThrust) / (r.mass + r.fuel)) - Gravity;
      r := r.(velocity := r.velocity + v);
      r := r.(altitude := r.altitude + TimeStep * r.velocity);
      if r.altitude <= 0.0 {
        r := r.(stillLanding := false, altitude := 0.0);
      }
      r := r.(fuel := r.fuel - TimeStep * r.maxFuelConsumptionRate * Abs(v));
      if r.fuel < 0.0 {
        r := r.(fuel := 0.0);
      }
      r := r.(timesSimulated := r.timesSimulated + 1);
    }
  }

  /**
   * The copy that one command of simulateLanding makes of the selected
   * lander: the rate is offered (a rejection is ignored), then one step.
   */
  function Stepped(l: Lander, rate: real): (r: Lander)
    requires l.stillLanding ==> 0.0 < l.mass + l.fuel
    ensures Flyable(l) ==> Flyable(r)
    ensures r.stillLanding ==> l.stillLanding
  {
    Step(ChangeFlowRate(l, rate).1)
  }

  /**
   * The life of one lander under a sequence of operator commands: each
   * command is offered to the flow-rate setter (a rejection is ignored) and
   * then one step is taken.
   */
  function Fly(l: Lander, rates: seq<real>): (r: Lander)
    requires Flyable(l)
    ensures Flyable(r)
    decreases |rates|
  {
    if rates == [] then l
    else Fly(Stepped(l, rates[0]), rates[1..])
  }

  /** Once a lander is down, no command changes its status or its rank. */
  lemma {:induction false} SettledStaysSettled(l: Lander, rates: seq<real>)
    requires Flyable(l) && Status(l) != 'a'
    ensures Status(Fly(l, rates)) == Status(l)
    ensures RankKey(Fly(l, rates)) == RankKey(l)
    decreases |rates|
  {
    if rates != [] {
      var next := Stepped(l, rates[0]);
      assert Status(next) == Status(l) && RankKey(next) == RankKey(l);
      SettledStaysSettled(next, rates[1..]);
    }
  }

  /**
   * A lander still airborne after a flight was airborne all along, and it was
   * stepped exactly once per command.
   */
  lemma {:induction false} AirborneCountsEverySteps(l: Lander, rates: seq<real>)
    requires Flyable(l)
    ensures Fly(l, rates).stillLanding ==> l.stillLanding
    ensures Fly(l, rates).stillLanding ==> Fly(l, rates).timesSimulated == l.timesSimulated + |rates|
    decreases |rates|
  {
    if rates != [] {
      AirborneCountsEverySteps(Stepped(l, rates[0]), rates[1..]);
    }
  }

  /** After at least one step from the air, fuel and altitude are never negative again. */
  lemma {:induction false} FlightKeepsClamps(l: Lander, rates: seq<real>)
    requires Flyable(l) && l.stillLanding && rates != []
    ensures 0.0 <= Fly(l, rates).fuel && 0.0 <= Fly(l, rates).altitude
    decreases |rates|
  {
    var next := Stepped(l, rates[0]);
    if |rates| > 1 {
      if next.stillLanding {
        FlightKeepsClamps(next, rates[1..]);
      } else {
        SettledStaysSettled(next, rates[1..]);
      }
    }
  }

  /**
   * lander::operator>: `a` outranks `b` when it has been stepped fewer
   * times, then when it is lower, then when it has less fuel, then when it
   * is heavier, and finally when its id is smaller.
   */
  function Outranks(a: Lander, b: Lander): (r: bool)
    ensures a.timesSimulated < b.timesSimulated ==> r
    ensures r ==> a.timesSimulated <= b.timesSimulated
    ensures r ==> a != b
  {
    if a.timesSimulated != b.timesSimulated then a.timesSimulated < b.timesSimulated
    else if a.altitude != b.altitude then a.altitude < b.altitude
    else if a.fuel != b.fuel then a.fuel < b.fuel
    else if a.mass != b.mass then a.mass > b.mass
    else a.id < b.id
  }

  /** The five keys of the ordering, each oriented so that smaller ranks higher. */
  function RankKey(l: Lander): seq<real> {
    [l.timesSimulated as real, l.altitude, l.fuel, -l.mass, l.id as real]
  }

  /** Strict lexicographic "less than" on equally long key sequences. */
  function LexLess(s: seq<real>, t: seq<real>): bool
    requires |s| == |t|
    decreases |s|
  {
    if s == [] then false
    else if s[0] != t[0] then s[0] < t[0]
    else LexLess(s[1..], t[1..])
  }

  lemma {:induction false} LexLessAsymmetric(s: seq<real>, t: seq<real>)
    requires |s| == |t|
    ensures LexLess(s, t) ==> !LexLess(t, s)
    decreases |s|
  {
    if s != [] && s[0] == t[0] {
      LexLessAsymmetric(s[1..], t[1..]);
    }
  }

  lemma {:induction false} LexLessNegativelyTransitive(s: seq<real>, t: seq<real>, u: seq<real>)
    requires |s| == |t| == |u|
    ensures LexLess(s, u) ==> LexLess(s, t) || LexLess(t, u)
    decreases |s|
  {
    if s != [] && s[0] == t[0] == u[0] {
      LexLessNegativelyTransitive(s[1..], t[1..], u[1..]);
    }
  }

  lemma {:induction false} LexLessConnected(s: seq<real>, t: seq<real>)
    requires |s| == |t|
    ensures s != t ==> LexLess(s, t) || LexLess(t, s)
    decreases |s|
  {
    if s != [] && s[0] == t[0] {
      LexLessConnected(s[1..], t[1..]);
      if s != t {
        assert s == [s[0]] + s[1..] && t == [t[0]] + t[1..];
      }
    }
  }

  /** operator> is exactly the lexicographic comparison of the rank keys. */
  lemma OutranksIsLexicographic(a: Lander, b: Lander)
    ensures Outranks(a, b) <==> LexLess(RankKey(a), RankKey(b))
  {
    var k4a, k4b := [a.id as real], [b.id as real];
    var k3a, k3b := [-a.mass] + k4a, [-b.mass] + k4b;
    var k2a, k2b := [a.fuel] + k3a, [b.fuel] + k3b;
    var k1a, k1b := [a.altitude] + k2a, [b.altitude] + k2b;
    assert RankKey(a) == [a.timesSimulated as real] + k1a;
    assert RankKey(b) == [b.timesSimulated as real] + k1b;
    LexLessCons(a.timesSimulated as real, k1a, b.timesSimulated as real, k1b);
    LexLessCons(a.altitude, k2a, b.altitude, k2b);
    LexLessCons(a.fuel, k3a, b.fuel, k3b);
    LexLessCons(-a.mass, k4a, -b.mass, k4b);
    LexLessCons(a.id as real, [], b.id as real, []);
  }

  lemma LexLessCons(x: real, s: seq<real>, y: real, t: seq<real>)
    requires |s| == |t|
    ensures LexLess([x] + s, [y] + t) == if x != y then x < y else LexLess(s, t)
  {
    assert ([x] + s)[1..] == s && ([y] + t)[1..] == t;
  }

  /** operator> never holds between a lander and itself. */
  lemma OutranksIrreflexive(l: Lander)
    ensures !Outranks(l, l)
  {
  }

  /** Landers with different rank keys are always ordered one way or the other. */
  lemma OutranksConnected(a: Lander, b: Lander)
    requires RankKey(a) != RankKey(b)
    ensures Outranks(a, b) || Outranks(b, a)
  {
    OutranksIsLexicographic(a, b);
    OutranksIsLexicographic(b, a);
    LexLessConnected(RankKey(a), RankKey(b));
  }

  /** operator> is a strict weak order, which is what the heap requires of its ordering. */
  lemma OutranksIsStrictWeakOrder()
    ensures Orderings.StrictWeakOrder(Outranks)
  {
    forall a: Lander, b: Lander
      ensures Outranks(a, b) ==> !Outranks(b, a)
    {
      OutranksIsLexicographic(a, b);
      OutranksIsLexicographic(b, a);
      LexLessAsymmetric(RankKey(a), RankKey(b));
    }
    forall a: Lander, b: Lander, c: Lander
      ensures Orderings.NegativelyTransitiveAt(Outranks, a, b, c)
    {
      OutranksIsLexicographic(a, c);
      OutranksIsLexicographic(a, b);
      OutranksIsLexicographic(b, c);
      LexLessNegativelyTransitive(RankKey(a), RankKey(b), RankKey(c));
    }
  }

  /**
   * One command applied to a lander never produces a copy that outranks the
   * original: an airborne lander gains a step, a settled one keeps its keys.
   */
  lemma SteppedNeverOutranks(l: Lander, rate: real)
    requires l.stillLanding ==> 0.0 < l.mass + l.fuel
    ensures var stepped := Stepped(l, rate);
            && (l.stillLanding ==> stepped.timesSimulated == l.timesSimulated + 1)
            && (!l.stillLanding ==> RankKey(stepped) == RankKey(l) && Status(stepped) == Status(l))
            && !Outranks(stepped, l)
  {
  }

  /** Of two fresh landers alike but for altitude (and id), the lower one is selected first. */
  lemma LowerAltitudeFirst(mass: real, maxThrust: real, maxFuelConsumptionRate: real,
                           low: real, high: real, fuel: real, lowId: int, highId: int)
    requires low < high
    ensures Outranks(NewLander(mass, maxThrust, maxFuelConsumptionRate, low, fuel, lowId),
                     NewLander(mass, maxThrust, maxFuelConsumptionRate, high, fuel, highId))
    ensures !Outranks(NewLander(mass, maxThrust, maxFuelConsumptionRate, high, fuel, highId),
                      NewLander(mass, maxThrust, maxFuelConsumptionRate, low, fuel, lowId))
  {
  }

  /** A touchdown at -3 m/s is a crash, one at -1 m/s a landing. */
  lemma TouchdownScenarios()
    ensures Status(Step(Lander(0.0, -1.38, 1.0, 10.0, true, 1, 0, 1000.0, 0.0001, 15000.0))) == 'c'
    ensures Status(Step(Lander(0.0, 0.62, 0.5, 10.0, true, 2, 0, 1000.0, 0.0001, 15000.0))) == 'l'
  {
  }
}
