/** The input debouncer (debounce.c), over whole sequences of samples. */
module Debounce {

  datatype Flanco = SinFlanco | AActivo | APasivo

  /** debouncePin_t; estado is the logical state and cont the accumulator. */
  datatype Pin = Pin(activeHigh: bool, estado: bool, cont: nat, flanco: Flanco)

  function Init(activeHigh: bool): Pin {
    Pin(activeHigh, false, 0, SinFlanco)
  }

  /** debouncePin_handler with the sampled input level. */
  function Sample(p: Pin, level: bool): Pin {
    var cont := if level then (if p.cont <= 4 then p.cont + 1 else p.cont)
                else if p.cont > 0 then p.cont - 1 else p.cont;
    if cont >= 4 then
      if p.activeHigh then Pin(true, true, cont, if !p.estado then AActivo else p.flanco)
      else Pin(false, false, cont, if p.estado then APasivo else p.flanco)
    else if cont == 0 then
      if p.activeHigh then Pin(true, false, cont, if p.estado then APasivo else p.flanco)
      else Pin(false, true, cont, if !p.estado then AActivo else p.flanco)
    else p.(cont := cont)
  }

  function ClearFlanco(p: Pin): Pin {
    p.(flanco := SinFlanco)
  }

  function Run(p: Pin, samples: seq<bool>): Pin {
    if samples == [] then p
    else Sample(Run(p, samples[..|samples| - 1]), samples[|samples| - 1])
  }

  /** Sample i of the run changes the debounced state. */
  predicate Changes(p: Pin, samples: seq<bool>, i: nat)
    requires i < |samples|
  {
    Run(p, samples[..i]).estado != Run(p, samples[..i + 1]).estado
  }

  lemma RunStep(p: Pin, samples: seq<bool>, i: nat)
    requires i < |samples|
    ensures Run(p, samples[..i + 1]) == Sample(Run(p, samples[..i]), samples[i])
  {
    assert samples[..i + 1][..i] == samples[..i];
  }

  /** The accumulator stays within 0..5 and moves by at most one per sample. */
  lemma {:induction false} AccumulatorBounded(p: Pin, samples: seq<bool>)
    requires p.cont <= 5
    ensures var q := Run(p, samples);
            && q.cont <= 5 && q.activeHigh == p.activeHigh
            && -|samples| <= q.cont - p.cont <= |samples|
  {
    if samples != [] {
      AccumulatorBounded(p, samples[..|samples| - 1]);
    }
  }

  /** The state a level stands for. */
  function Meaning(p: Pin, level: bool): bool {
    level == p.activeHigh
  }

  /** After five equal samples, whatever came before, the state is the one the level stands for. */
  lemma FiveEqualSamplesDecide(p: Pin, samples: seq<bool>, level: bool)
    requires p.cont <= 5 && |samples| >= 5
    requires forall i :: |samples| - 5 <= i < |samples| ==> samples[i] == level
    ensures Run(p, samples).estado == Meaning(p, level)
  {
    LevelHeld(p, samples, |samples| - 5, level, 5);
    assert samples[..|samples|] == samples;
  }

  /** k equal samples move the accumulator k steps towards its end. */
  lemma {:induction false} LevelHeld(p: Pin, samples: seq<bool>, from: nat, level: bool, k: nat)
    requires p.cont <= 5 && from + k <= |samples| && k <= 5
    requires forall i :: from <= i < from + k ==> samples[i] == level
    ensures var q := Run(p, samples[..from + k]);
            && q.cont <= 5 && q.activeHigh == p.activeHigh
            && (if level then q.cont >= k else q.cont <= 5 - k)
            && (k == 5 ==> q.estado == Meaning(p, level))
    decreases k
  {
    if k == 0 {
      AccumulatorBounded(p, samples[..from]);
    } else {
      LevelHeld(p, samples, from, level, k - 1);
      RunStep(p, samples, from + (k - 1));
      HeldOnce(Run(p, samples[..from + (k - 1)]), level, k);
    }
  }

  lemma HeldOnce(before: Pin, level: bool, k: nat)
    requires before.cont <= 5 && 0 < k <= 5 && if level then before.cont >= k - 1 else before.cont <= 6 - k
    ensures var q := Sample(before, level);
            && q.cont <= 5 && q.activeHigh == before.activeHigh
            && (if level then q.cont >= k else q.cont <= 5 - k)
            && (k == 5 ==> q.estado == Meaning(before, level))
  {
    SampleMoves(before, level);
  }

  /** One sample moves the accumulator one step; at either end it fixes the state. */
  lemma SampleMoves(p: Pin, level: bool)
    requires p.cont <= 5
    ensures var q := Sample(p, level);
            && q.activeHigh == p.activeHigh
            && q.cont == (if level then (if p.cont == 5 then 5 else p.cont + 1)
                          else if p.cont == 0 then 0 else p.cont - 1)
            && (q.cont >= 4 ==> q.estado == Meaning(p, true))
            && (q.cont == 0 ==> q.estado == Meaning(p, false))
  {
  }

  function Held(level: bool, k: nat): (samples: seq<bool>)
    ensures |samples| == k && forall i :: 0 <= i < k ==> samples[i] == level
  {
    seq(k, _ => level)
  }

  /** Between two decisions, k equal samples decide exactly when they move the accumulator to 4 or to 0. */
  lemma {:induction false} HeldLevelDecidesIff(p: Pin, level: bool, k: nat)
    requires 0 < p.cont < 4 && p.estado != Meaning(p, level)
    ensures Run(p, Held(level, k)).estado == Meaning(p, level)
            <==> (if level then p.cont + k >= 4 else p.cont <= k)
    ensures var q := Run(p, Held(level, k));
            && q.activeHigh == p.activeHigh && q.cont <= 5
            && q.cont == (if level then (if p.cont + k >= 5 then 5 else p.cont + k)
                          else if p.cont <= k then 0 else p.cont - k)
  {
    if k > 0 {
      HeldLevelDecidesIff(p, level, k - 1);
      var samples := Held(level, k);
      assert samples[..k - 1] == Held(level, k - 1);
      OneMoreSample(p, Run(p, Held(level, k - 1)), level, k);
    }
  }

  /** The accumulator and the state after k equal samples, from those after k - 1. */
  lemma OneMoreSample(p: Pin, before: Pin, level: bool, k: nat)
    requires 0 < p.cont < 4 && p.estado != Meaning(p, level) && k > 0
    requires before.estado == Meaning(p, level) <==> if level then p.cont + k >= 5 else p.cont < k
    requires before.activeHigh == p.activeHigh
    requires before.cont == if level then (if p.cont + k >= 6 then 5 else p.cont + (k - 1))
                            else if p.cont < k then 0 else p.cont - (k - 1)
    ensures var q := Sample(before, level);
            && (q.estado == Meaning(p, level) <==> if level then p.cont + k >= 4 else p.cont <= k)
            && q.activeHigh == p.activeHigh
            && q.cont == if level then (if p.cont + k >= 5 then 5 else p.cont + k)
                         else if p.cont <= k then 0 else p.cont - k
  {
  }

  /** Two changes of the debounced state are at least four samples apart. */
  lemma ChangesFourApart(p: Pin, samples: seq<bool>, i: nat, j: nat)
    requires p.cont <= 5 && i < j < |samples|
    requires Changes(p, samples, i) && Changes(p, samples, j)
    ensures j - i >= 4
  {
    AccumulatorBounded(p, samples[..i]);
    RunStep(p, samples, i);
    var changed := Run(p, samples[..i + 1]);
    if j - i < 4 {
      StateHeld(p, samples, i, j);
      StateHeld(p, samples, i, j - 1);
    }
  }

  /** For three samples after a change at i the state does not change. */
  lemma {:induction false} StateHeld(p: Pin, samples: seq<bool>, i: nat, j: nat)
    requires p.cont <= 5 && i <= j < |samples| && j - i < 4 && Changes(p, samples, i)
    ensures var first, now := Run(p, samples[..i + 1]), Run(p, samples[..j + 1]);
            && now.estado == first.estado && now.activeHigh == p.activeHigh
            && (first.estado == p.activeHigh ==> now.cont >= 4 - (j - i))
            && (first.estado != p.activeHigh ==> now.cont <= j - i)
    decreases j - i
  {
    AccumulatorBounded(p, samples[..i]);
    RunStep(p, samples, j);
    if j > i {
      StateHeld(p, samples, i, j - 1);
      FarFromOtherEnd(Run(p, samples[..j]), samples[j]);
    }
  }

  /** One sample does not change the state unless the accumulator is one step from the other end. */
  lemma FarFromOtherEnd(p: Pin, level: bool)
    requires if p.estado == p.activeHigh then p.cont >= 2 else p.cont <= 2
    ensures var q := Sample(p, level);
            && q.estado == p.estado && q.activeHigh == p.activeHigh
            && p.cont - 1 <= q.cont <= p.cont + 1
  {
  }

  // ---------------------------------------------------------------- the edge latch

  datatype Event = Sampled(level: bool) | Cleared

  function RunEvents(p: Pin, events: seq<Event>): Pin {
    if events == [] then p else
    var before := RunEvents(p, events[..|events| - 1]);
    match events[|events| - 1]
    case Sampled(level) => Sample(before, level)
    case Cleared => ClearFlanco(before)
  }

  /** The direction of the last change since the last clear, told from the states alone. */
  function LastEdge(p: Pin, events: seq<Event>): Flanco {
    if events == [] then SinFlanco else
    var front := events[..|events| - 1];
    var before, after := RunEvents(p, front), RunEvents(p, events);
    if events[|events| - 1].Cleared? then SinFlanco
    else if before.estado == after.estado then LastEdge(p, front)
    else if after.estado then AActivo else APasivo
  }

  /** The latch records the last change since it was cleared. */
  lemma {:induction false} LatchRecordsLastEdge(p: Pin, events: seq<Event>)
    requires p.flanco == SinFlanco
    ensures RunEvents(p, events).flanco == LastEdge(p, events)
  {
    if events != [] {
      LatchRecordsLastEdge(p, events[..|events| - 1]);
    }
  }

  /** The samples among the events. */
  function SamplesOf(events: seq<Event>): seq<bool> {
    if events == [] then [] else
    var last := events[|events| - 1];
    SamplesOf(events[..|events| - 1]) + if last.Sampled? then [last.level] else []
  }

  /** Reading and clearing the latch does not disturb the debouncing: state and accumulator are those of the samples. */
  lemma {:induction false} ClearsTouchOnlyLatch(p: Pin, events: seq<Event>)
    ensures var q, r := RunEvents(p, events), Run(p, SamplesOf(events));
            q.estado == r.estado && q.cont == r.cont && q.activeHigh == r.activeHigh
  {
    if events != [] {
      var front := SamplesOf(events[..|events| - 1]);
      ClearsTouchOnlyLatch(p, events[..|events| - 1]);
      match events[|events| - 1] {
        case Cleared => assert front + [] == front;
        case Sampled(level) => assert (front + [level])[..|front|] == front;
      }
    }
  }

  /**
   From the start, k equal samples: high ones decide with the fourth, low ones with the first, so
   that an active-low input is active after a single low sample.
   */
  lemma {:induction false} FirstDecision(activeHigh: bool, level: bool, k: nat)
    ensures var q := Run(Init(activeHigh), Held(level, k));
            && q.activeHigh == activeHigh
            && q.cont == (if !level then 0 else if k <= 5 then k else 5)
            && q.estado == (if level then k >= 4 && activeHigh else k >= 1 && !activeHigh)
            && q.flanco == if q.estado then AActivo else SinFlanco
  {
    if k > 0 {
      FirstDecision(activeHigh, level, k - 1);
      assert Held(level, k)[..k - 1] == Held(level, k - 1);
    }
  }

  class DebouncePin {
    const activeHigh: bool
    var estado: bool
    var cont: nat
    var flanco: Flanco

    function View(): Pin
      reads this
    {
      Pin(activeHigh, estado, cont, flanco)
    }

    /** debouncePin_init */
    constructor (activeHigh: bool)
      ensures View() == Init(activeHigh)
    {
      this.activeHigh := activeHigh;
      estado, cont, flanco := false, 0, SinFlanco;
    }

    /** debouncePin_handler */
    method Handler(level: bool)
      modifies this
      ensures View() == Sample(old(View()), level)
    {
      if level {
        if cont <= 4 {
          cont := cont + 1;
        }
      } else {
        if cont > 0 {
          cont := cont - 1;
        }
      }
      if cont >= 4 {
        if activeHigh {
          if !estado {
            flanco := AActivo;
          }
          estado := true;
        } else {
          if estado {
            flanco := APasivo;
          }
          estado := false;
        }
      } else if cont == 0 {
        if activeHigh {
          if estado {
            flanco := APasivo;
          }
          estado := false;
        } else {
          if !estado {
            flanco := AActivo;
          }
          estado := true;
        }
      }
    }

    /** debouncePin_clearFlanco */
    method Clear()
      modifies this
      ensures View() == ClearFlanco(old(View()))
    {
      flanco := SinFlanco;
    }
  }
}
