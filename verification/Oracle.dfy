/** The timestamp oracle: hybrid timestamps under concurrent reads, clock updates and restarts, with the
    integer widths of the code (meta_server/timestamp.h). */
module Oracles {
  import opened Common

  const TWO_18: nat := 0x4_0000
  const TWO_31: nat := 0x8000_0000
  const TWO_32: nat := 0x1_0000_0000
  const TWO_63: nat := 0x8000_0000_0000_0000
  const TWO_64: nat := 0x1_0000_0000_0000_0000

  const MAX_LOGICAL: nat := TWO_18
  const SAVE_INTERVAL: nat := 1
  const UPDATE_GUARD: nat := 1
  const MAX_RETRY: nat := 100
  /** Physical parts below this bound keep every timestamp within 64 bits. */
  const PHYSICAL_BOUND: nat := 0x4000_0000_0000 - 1

  /** Unsigned subtraction of 64-bit numbers. */
  function Minus(a: nat, b: nat): (d: nat)
    ensures d < TWO_64
  {
    (a - b) % TWO_64
  }

  /** The cast to a signed 32-bit number keeps the low half. */
  function ToInt32(n: nat): int {
    var low := n % TWO_32;
    if low < TWO_31 then low else low - TWO_32
  }

  function ToInt64(n: nat): int
    requires n < TWO_64
  {
    if n < TWO_63 then n else n - TWO_64
  }

  function ComposeTs(physical: nat, logical: nat): (ts: nat)
    ensures ts < TWO_64
  {
    (physical * TWO_18 + logical) % TWO_64
  }

  function ExtractPhysical(ts: nat): nat {
    ts / TWO_18
  }

  /** The oracle, the timestamp file beside it, and all the timestamps issued so far, oldest first. */
  datatype State = State(lastTs: nat, physical: nat, logical: nat, saved: nat, issued: seq<nat>)

  datatype Step = Get | Update(now: nat) | Restart(now: nat)

  /** The physical part that a start takes. */
  function Synced(lastTs: nat, now: nat): nat {
    if Minus(now, lastTs) < UPDATE_GUARD then (lastTs + UPDATE_GUARD) % TWO_64 else now
  }

  predicate Saves(lastTs: nat, next: nat) {
    ToInt32(Minus(lastTs, next)) <= UPDATE_GUARD
  }

  /** The physical part after an update, if there is one. */
  function Advanced(s: State, now: nat): (next: nat) {
    if ToInt64(Minus(now, s.physical)) > UPDATE_GUARD then now
    else if s.logical > MAX_LOGICAL / 2 then (s.physical + 1) % TWO_64
    else s.physical
  }

  function Next(s: State, step: Step): State {
    match step
    case Get =>
      var logical := (s.logical + 1) % TWO_64;
      if s.physical == 0 || logical > MAX_LOGICAL then s.(logical := logical)
      else s.(logical := logical, issued := s.issued + [ComposeTs(s.physical, logical)])
    case Update(now) =>
      var next := Advanced(s, now);
      if ToInt64(Minus(now, s.physical)) <= UPDATE_GUARD && s.logical <= MAX_LOGICAL / 2 then s
      else s.(physical := next, logical := 0,
              saved := if Saves(s.lastTs, next) then (next + SAVE_INTERVAL) % TWO_64 else s.saved)
    case Restart(now) =>
      var next := Synced(s.saved, now);
      s.(lastTs := s.saved, physical := next, logical := 0, saved := (next + SAVE_INTERVAL) % TWO_64)
  }

  /** The state after the first steps of a run, from a timestamp file holding `file`. */
  function After(file: nat, steps: seq<Step>): State {
    if |steps| == 0 then State(0, 0, 0, file, []) else Next(After(file, steps[..|steps| - 1]), steps[|steps| - 1])
  }

  ghost predicate Increasing(ts: seq<nat>) {
    forall i, j :: 0 <= i < j < |ts| ==> ts[i] < ts[j]
  }

  /** The largest timestamp that the current physical and logical parts can have issued. */
  function Top(s: State): nat {
    s.physical * TWO_18 + if s.logical < MAX_LOGICAL then s.logical else MAX_LOGICAL
  }

  ghost predicate Ordered(s: State) {
    Increasing(s.issued) && forall i :: 0 <= i < |s.issued| ==> s.issued[i] <= Top(s)
  }

  // ---- the exact conditions -------------------------------------------------------------------------

  /** A start takes a physical part not below the loaded value if and only if the clock is not below it:
      the test before it subtracts unsigned numbers, so it catches equality only. */
  lemma SyncIsMonotoneIff(lastTs: nat, now: nat)
    requires lastTs < PHYSICAL_BOUND && now < PHYSICAL_BOUND
    ensures Synced(lastTs, now) >= lastTs <==> now >= lastTs
    ensures now >= lastTs ==> Synced(lastTs, now) == if now == lastTs then lastTs + 1 else now
  {
  }

  /** An update saves if and only if it is, in the low 32 bits, at most 2^31 ahead of the loaded value, or
      one behind it. */
  lemma SavesIff(lastTs: nat, next: nat)
    requires lastTs <= next < TWO_64
    ensures Saves(lastTs, next) <==>
              (next - lastTs) % 0x1_0000_0000 <= 0x8000_0000 || (next - lastTs) % 0x1_0000_0000 == 0xFFFF_FFFF
  {
  }

  /** An update moves the physical part forward, and then only. */
  lemma UpdateAdvances(s: State, now: nat)
    requires s.physical < PHYSICAL_BOUND && now < PHYSICAL_BOUND
    ensures var s' := Next(s, Update(now));
            s' == s || (s'.physical > s.physical && s'.logical == 0)
    ensures Next(s, Update(now)).physical == if now > s.physical + 1 then now
                                             else if s.logical > 0x2_0000 then s.physical + 1 else s.physical
  {
  }

  // ---- order ----------------------------------------------------------------------------------------

  lemma GetKeepsOrder(s: State)
    requires Ordered(s) && s.physical < PHYSICAL_BOUND && s.logical < TWO_63
    ensures Ordered(Next(s, Get))
  {
  }

  lemma RaiseKeepsOrder(s: State, s': State)
    requires Ordered(s) && s'.issued == s.issued && s'.physical > s.physical && s'.logical == 0
    ensures Ordered(s')
  {
  }

  predicate AdmissibleStep(s: State, step: Step) {
    && Next(s, step).physical < PHYSICAL_BOUND && Next(s, step).saved < PHYSICAL_BOUND
    && match step
       case Get => true
       case Update(now) => now < PHYSICAL_BOUND
       case Restart(now) => s.saved <= now < PHYSICAL_BOUND
  }

  /** What a run must meet: clocks and physical parts within bounds, and on every restart a clock that is
      not behind the saved value. */
  ghost predicate Admissible(file: nat, steps: seq<Step>) {
    && file < PHYSICAL_BOUND && |steps| < TWO_63
    && forall i :: 0 <= i < |steps| ==> AdmissibleStep(After(file, steps[..i]), steps[i])
  }

  /** Between restarts nothing but the clock bound is needed. */
  ghost predicate StartedOnce(steps: seq<Step>) {
    forall i :: 0 < i < |steps| ==> !steps[i].Restart?
  }

  predicate SavedStep(s: State, step: Step) {
    step.Update? && Next(s, step) != s ==> Saves(s.lastTs, Next(s, step).physical)
  }

  /** Every update that moves the oracle is saved: the guard before the save is met each time. */
  ghost predicate AlwaysSaves(file: nat, steps: seq<Step>) {
    forall i :: 0 <= i < |steps| ==> SavedStep(After(file, steps[..i]), steps[i])
  }

  /** The physical part stays within 2^31 of the value loaded at the last start. */
  ghost predicate StaysClose(file: nat, steps: seq<Step>) {
    forall i :: 0 <= i <= |steps| ==> var s := After(file, steps[..i]); s.physical <= s.lastTs + TWO_31
  }

  /** The saved value is above everything issued. */
  predicate SavedAhead(s: State) {
    s.lastTs <= s.physical && (s.physical == 0 || s.saved > s.physical)
  }

  /** Not even the current physical part is above the saved value. */
  predicate NotBehind(s: State) {
    s.saved >= s.physical
  }

  lemma AheadIsNotBehind(s: State)
    requires SavedAhead(s)
    ensures NotBehind(s)
  {
  }

  lemma StepKeepsOrder(s: State, step: Step)
    requires Ordered(s) && s.physical < PHYSICAL_BOUND && s.saved < PHYSICAL_BOUND && s.logical < TWO_63
    requires AdmissibleStep(s, step) && (step.Restart? ==> NotBehind(s) || s.issued == [])
    ensures Ordered(Next(s, step)) && Next(s, step).logical <= s.logical + 1
  {
    match step
    case Get => GetKeepsOrder(s);
    case Update(now) =>
      UpdateAdvances(s, now);
      if Next(s, step) != s { RaiseKeepsOrder(s, Next(s, step)); }
    case Restart(now) =>
      SyncIsMonotoneIff(s.saved, now);
      if s.issued != [] && s.physical > 0 { RaiseKeepsOrder(s, Next(s, step)); }
  }

  lemma StepKeepsSaved(s: State, step: Step)
    requires SavedAhead(s) && s.physical < PHYSICAL_BOUND && s.saved < PHYSICAL_BOUND && AdmissibleStep(s, step)
    requires SavedStep(s, step)
    ensures SavedAhead(Next(s, step))
    ensures step.Restart? ==> Next(s, step).physical > 0
    ensures s.saved == s.physical + 1 || step.Restart? ==> Next(s, step).saved == Next(s, step).physical + 1
  {
    match step
    case Get =>
    case Update(now) =>
      UpdateAdvances(s, now);
    case Restart(now) =>
      SyncIsMonotoneIff(s.saved, now);
  }

  /** An update that is not saved leaves the saved value behind. */
  lemma UnsavedFallsBehind(s: State, step: Step)
    requires s.saved == s.physical + 1 && s.physical < PHYSICAL_BOUND && AdmissibleStep(s, step) && !SavedStep(s, step)
    ensures Next(s, step).physical > 0 && Next(s, step).saved <= Next(s, step).physical
  {
    UpdateAdvances(s, step.now);
  }

  /** A restart whose clock is not behind the saved value goes past everything issued before, whatever the
      clock, if and only if the saved value is not behind the physical part. */
  lemma RestartAdvancesIff(s: State)
    requires s.physical < PHYSICAL_BOUND && s.saved < PHYSICAL_BOUND - 1
    ensures (forall now :: s.saved <= now < PHYSICAL_BOUND ==> Next(s, Restart(now)).physical > s.physical) <==>
            NotBehind(s)
  {
    forall now | s.saved <= now < PHYSICAL_BOUND
      ensures Next(s, Restart(now)).physical == if now == s.saved then now + 1 else now
    {
      SyncIsMonotoneIff(s.saved, now);
    }
    assert Next(s, Restart(s.saved)).physical == s.saved + 1;
    assert Next(s, Restart(s.saved + 1)).physical == s.saved + 1;
  }

  lemma StepBounds(s: State, step: Step)
    requires AdmissibleStep(s, step) && s.logical < TWO_63
    ensures var s' := Next(s, step);
            s'.physical < PHYSICAL_BOUND && s'.saved < PHYSICAL_BOUND && s'.logical <= s.logical + 1
  {
  }

  lemma AdmissiblePrefix(file: nat, steps: seq<Step>, n: nat)
    requires Admissible(file, steps) && n <= |steps|
    ensures Admissible(file, steps[..n])
  {
    hide AdmissibleStep;
    forall i | 0 <= i < n
      ensures AdmissibleStep(After(file, steps[..n][..i]), steps[..n][i])
    {
      assert steps[..n][..i] == steps[..i];
    }
  }

  lemma {:induction false} StateBounds(file: nat, steps: seq<Step>)
    requires Admissible(file, steps)
    ensures var s := After(file, steps);
            s.physical < PHYSICAL_BOUND && s.saved < PHYSICAL_BOUND && s.logical <= |steps|
  {
    hide AdmissibleStep, Next;
    if |steps| > 0 {
      var n := |steps| - 1;
      AdmissiblePrefix(file, steps, n);
      StateBounds(file, steps[..n]);
      assert AdmissibleStep(After(file, steps[..n]), steps[n]);
      StepBounds(After(file, steps[..n]), steps[n]);
    }
  }

  lemma NothingIssued(file: nat)
    ensures Ordered(State(0, 0, 0, file, [])) && SavedAhead(State(0, 0, 0, file, []))
  {
  }

  /** From one start on, in every interleaving of reads and updates, the issued timestamps increase
      strictly, also where the logical part carries into the physical one. */
  lemma {:induction false} IssuedIncrease(file: nat, steps: seq<Step>)
    requires Admissible(file, steps) && StartedOnce(steps)
    ensures Ordered(After(file, steps))
    ensures |steps| == 0 ==> After(file, steps).issued == []
  {
    hide AdmissibleStep, Ordered, Next;
    if |steps| == 0 {
      assert Ordered(After(file, steps)) by { NothingIssued(file); }
    } else {
      var n := |steps| - 1;
      AdmissiblePrefix(file, steps, n);
      IssuedIncrease(file, steps[..n]);
      StateBounds(file, steps[..n]);
      assert AdmissibleStep(After(file, steps[..n]), steps[n]);
      StepKeepsOrder(After(file, steps[..n]), steps[n]);
    }
  }

  lemma SavesPrefix(file: nat, steps: seq<Step>, n: nat)
    requires AlwaysSaves(file, steps) && n <= |steps|
    ensures AlwaysSaves(file, steps[..n])
  {
    hide SavedStep;
    forall i | 0 <= i < n
      ensures SavedStep(After(file, steps[..n][..i]), steps[..n][i])
    {
      assert steps[..n][..i] == steps[..i];
    }
  }

  /** Over any number of restarts, as long as every update is saved, the saved value is ahead and the
      issued timestamps increase strictly. */
  lemma {:induction false} RestartsAreSafe(file: nat, steps: seq<Step>)
    requires Admissible(file, steps) && AlwaysSaves(file, steps)
    ensures Ordered(After(file, steps)) && SavedAhead(After(file, steps))
    ensures |steps| > 0 && steps[0].Restart? ==> After(file, steps).saved == After(file, steps).physical + 1
  {
    hide AdmissibleStep, Ordered, SavedAhead, Next, SavedStep;
    if |steps| == 0 {
      NothingIssued(file);
    } else {
      var n := |steps| - 1;
      AdmissiblePrefix(file, steps, n);
      SavesPrefix(file, steps, n);
      RestartsAreSafe(file, steps[..n]);
      StateBounds(file, steps[..n]);
      assert AdmissibleStep(After(file, steps[..n]), steps[n]);
      AheadIsNotBehind(After(file, steps[..n]));
      StepKeepsOrder(After(file, steps[..n]), steps[n]);
      StepKeepsSaved(After(file, steps[..n]), steps[n]);
    }
  }

  lemma {:induction false} FirstUnsaved(file: nat, steps: seq<Step>, n: nat) returns (i: nat)
    requires n <= |steps| && !AlwaysSaves(file, steps[..n])
    ensures i < n && AlwaysSaves(file, steps[..i]) && !SavedStep(After(file, steps[..i]), steps[i])
  {
    hide SavedStep, After;
    if AlwaysSaves(file, steps[..n - 1]) {
      i := n - 1;
      forall j | 0 <= j < n - 1
        ensures SavedStep(After(file, steps[..n][..j]), steps[..n][j])
      {
        assert steps[..n - 1][..j] == steps[..n][..j] && steps[..n - 1][j] == steps[..n][j];
      }
      assert steps[..n][..n - 1] == steps[..n - 1];
    } else {
      i := FirstUnsaved(file, steps, n - 1);
    }
  }

  lemma AfterIs(file: nat, steps: seq<Step>)
    ensures After(file, steps) ==
            if |steps| == 0 then State(0, 0, 0, file, []) else Next(After(file, steps[..|steps| - 1]), steps[|steps| - 1])
  {
  }

  lemma UnsavedShows(file: nat, steps: seq<Step>, i: nat)
    requires Admissible(file, steps) && i < |steps| && steps[0].Restart?
    requires AlwaysSaves(file, steps[..i]) && !SavedStep(After(file, steps[..i]), steps[i])
    ensures !SavedAhead(After(file, steps[..i + 1]))
  {
    hide AdmissibleStep, Ordered, After;
    assert i > 0;
    AdmissiblePrefix(file, steps, i);
    RestartsAreSafe(file, steps[..i]);
    StateBounds(file, steps[..i]);
    assert AdmissibleStep(After(file, steps[..i]), steps[i]);
    UnsavedFallsBehind(After(file, steps[..i]), steps[i]);
    AfterIs(file, steps[..i + 1]);
    assert steps[..i + 1][..i] == steps[..i];
  }

  /** From its start on an oracle is safe against restarts in every state if and only if the guard before the
      save is met at every update. */
  lemma SavedAheadIff(file: nat, steps: seq<Step>)
    requires Admissible(file, steps) && |steps| > 0 && steps[0].Restart?
    ensures (forall i :: 0 <= i <= |steps| ==> SavedAhead(After(file, steps[..i]))) <==> AlwaysSaves(file, steps)
  {
    hide AdmissibleStep, Ordered, SavedAhead, Next, SavedStep, After;
    if AlwaysSaves(file, steps) {
      forall i | 0 <= i <= |steps|
        ensures SavedAhead(After(file, steps[..i]))
      {
        AdmissiblePrefix(file, steps, i);
        SavesPrefix(file, steps, i);
        RestartsAreSafe(file, steps[..i]);
      }
    } else {
      assert steps[..|steps|] == steps;
      var i := FirstUnsaved(file, steps, |steps|);
      UnsavedShows(file, steps, i);
    }
  }

  /** Whenever the logical part has moved, the largest timestamp that it allows has been issued. */
  ghost predicate TopIssued(s: State) {
    s.physical > 0 && s.logical > 0 ==> |s.issued| > 0 && s.issued[|s.issued| - 1] == Top(s)
  }

  lemma StepKeepsTop(s: State, step: Step)
    requires TopIssued(s) && s.physical < PHYSICAL_BOUND && s.logical < TWO_63
    ensures TopIssued(Next(s, step))
  {
    if step.Get? && s.physical > 0 && s.logical < MAX_LOGICAL {
      assert Next(s, step).issued == s.issued + [ComposeTs(s.physical, s.logical + 1)];
    }
  }

  lemma {:induction false} TopIsIssued(file: nat, steps: seq<Step>)
    requires Admissible(file, steps)
    ensures TopIssued(After(file, steps))
  {
    hide AdmissibleStep, Next, Top;
    if |steps| > 0 {
      var n := |steps| - 1;
      AdmissiblePrefix(file, steps, n);
      TopIsIssued(file, steps[..n]);
      StateBounds(file, steps[..n]);
      StepKeepsTop(After(file, steps[..n]), steps[n]);
    }
  }

  /** Restarts that find the saved value not behind keep the order. */
  lemma {:induction false} NotBehindKeepsOrder(file: nat, steps: seq<Step>)
    requires Admissible(file, steps) && forall i :: 0 <= i < |steps| ==> NotBehind(After(file, steps[..i]))
    ensures Ordered(After(file, steps))
  {
    hide AdmissibleStep, Ordered, Next, NotBehind;
    if |steps| == 0 {
      assert Ordered(After(file, steps)) by { NothingIssued(file); }
    } else {
      var n := |steps| - 1;
      AdmissiblePrefix(file, steps, n);
      forall i | 0 <= i < n
        ensures NotBehind(After(file, steps[..n][..i]))
      {
        assert steps[..n][..i] == steps[..i];
      }
      NotBehindKeepsOrder(file, steps[..n]);
      StateBounds(file, steps[..n]);
      assert AdmissibleStep(After(file, steps[..n]), steps[n]);
      StepKeepsOrder(After(file, steps[..n]), steps[n]);
    }
  }

  /** A read, a restart and a read. */
  function ReadAcross(s: State, now: nat): State {
    Next(Next(Next(s, Get), Restart(now)), Get)
  }

  lemma ReadAcrossIsOrdered(s: State, now: nat)
    requires Ordered(s) && NotBehind(s) && s.physical < PHYSICAL_BOUND && s.logical < TWO_63 && s.saved <= now < PHYSICAL_BOUND - 1
    ensures Ordered(ReadAcross(s, now))
  {
    hide Ordered;
    GetKeepsOrder(s);
    var s1 := Next(s, Get);
    SyncIsMonotoneIff(s1.saved, now);
    var s2 := Next(s1, Restart(now));
    RaiseKeepsOrder(s1, s2);
    GetKeepsOrder(s2);
  }

  /** With the saved value behind, a restart by a clock that stands on it issues no larger timestamp. */
  lemma ReadAcrossRepeats(s: State)
    requires TopIssued(s) && !NotBehind(s) && s.physical < PHYSICAL_BOUND && s.logical < TWO_63
    ensures s.saved < PHYSICAL_BOUND - 1 && !Ordered(ReadAcross(s, s.saved))
  {
    var (s1, s3) := (Next(s, Get), ReadAcross(s, s.saved));
    assert TopIssued(s1) && s1.issued[|s1.issued| - 1] >= s.physical * TWO_18 + 1;
    SyncIsMonotoneIff(s.saved, s.saved);
    assert s3.issued == s1.issued + [(s.saved + 1) * TWO_18 + 1];
    var n := |s1.issued|;
    assert s3.issued[n - 1] == s1.issued[n - 1] && s3.issued[n] == (s.saved + 1) * TWO_18 + 1;
  }

  /** Exactly when restarts keep the order: reading, restarting with any clock that is not behind the saved value and
      reading again keeps the timestamps increasing, whenever it happens, if and only if the saved value is never
      behind the physical part. */
  lemma OrderedAcrossRestartsIff(file: nat, steps: seq<Step>)
    requires Admissible(file, steps)
    ensures (forall i, now :: 0 <= i <= |steps| && After(file, steps[..i]).saved <= now < PHYSICAL_BOUND - 1 ==>
                                Ordered(ReadAcross(After(file, steps[..i]), now))) <==>
            (forall i :: 0 <= i <= |steps| ==> NotBehind(After(file, steps[..i])))
  {
    hide AdmissibleStep, Ordered, Next, NotBehind, After, ReadAcross, TopIssued;
    if forall i :: 0 <= i <= |steps| ==> NotBehind(After(file, steps[..i])) {
      forall i, now | 0 <= i <= |steps| && After(file, steps[..i]).saved <= now < PHYSICAL_BOUND - 1
        ensures Ordered(ReadAcross(After(file, steps[..i]), now))
      {
        AdmissiblePrefix(file, steps, i);
        forall j | 0 <= j < i
          ensures NotBehind(After(file, steps[..i][..j]))
        {
          assert steps[..i][..j] == steps[..j];
        }
        NotBehindKeepsOrder(file, steps[..i]);
        StateBounds(file, steps[..i]);
        ReadAcrossIsOrdered(After(file, steps[..i]), now);
      }
    } else {
      var i :| 0 <= i <= |steps| && !NotBehind(After(file, steps[..i]));
      AdmissiblePrefix(file, steps, i);
      StateBounds(file, steps[..i]);
      TopIsIssued(file, steps[..i]);
      ReadAcrossRepeats(After(file, steps[..i]));
    }
  }

  lemma CloseStepSaves(s: State, step: Step)
    requires SavedAhead(s) && s.physical < PHYSICAL_BOUND && AdmissibleStep(s, step)
    requires Next(s, step).physical <= Next(s, step).lastTs + TWO_31
    ensures SavedStep(s, step)
  {
    if step.Update? {
      UpdateAdvances(s, step.now);
      SavesIff(s.lastTs, Next(s, step).physical);
    }
  }

  lemma ClosePrefix(file: nat, steps: seq<Step>, n: nat)
    requires StaysClose(file, steps) && n <= |steps|
    ensures StaysClose(file, steps[..n])
    ensures After(file, steps).physical <= After(file, steps).lastTs + TWO_31
  {
    assert steps[..|steps|] == steps;
    forall i | 0 <= i <= n
      ensures var s := After(file, steps[..n][..i]); s.physical <= s.lastTs + TWO_31
    {
      assert steps[..n][..i] == steps[..i];
    }
  }

  /** Within 2^31 of the value loaded at the last start every update is saved. */
  lemma {:induction false} CloseRunsSave(file: nat, steps: seq<Step>)
    requires Admissible(file, steps) && StaysClose(file, steps)
    ensures AlwaysSaves(file, steps)
  {
    hide AdmissibleStep, SavedAhead, SavedStep, Next, After, Ordered;
    if |steps| > 0 {
      var n := |steps| - 1;
      AdmissiblePrefix(file, steps, n);
      ClosePrefix(file, steps, n);
      CloseRunsSave(file, steps[..n]);
      RestartsAreSafe(file, steps[..n]);
      StateBounds(file, steps[..n]);
      assert AdmissibleStep(After(file, steps[..n]), steps[n]);
      AfterIs(file, steps);
      CloseStepSaves(After(file, steps[..n]), steps[n]);
      forall i | 0 <= i < |steps|
        ensures SavedStep(After(file, steps[..i]), steps[i])
      {
        if i < n { assert steps[..n][..i] == steps[..i] && steps[..n][i] == steps[i]; }
      }
    }
  }

  /** The last logical part is one too large for its bits: it carries, into a timestamp that the next
      physical part never issues, because its logical parts start at one. */
  lemma LastLogicalCarries(physical: nat, logical: nat)
    requires physical < PHYSICAL_BOUND && 0 < logical <= MAX_LOGICAL
    ensures ExtractPhysical(ComposeTs(physical, logical)) == physical + (if logical == 0x4_0000 then 1 else 0)
    ensures ComposeTs(physical, logical) < ComposeTs(physical + 1, 1)
  {
  }

  /** A run of a new oracle, which has loaded nothing, under a clock beyond 2^31. */
  const FIRST_CLOCK: nat := TWO_31 + 1
  const UNSAVED_RUN: seq<Step> := [
    Restart(FIRST_CLOCK), Update(FIRST_CLOCK + 10), Get,
    Restart(FIRST_CLOCK + 1), Update(FIRST_CLOCK + 10), Get
  ]

  function UnsavedState(i: nat): State
    requires i <= 6
  {
    var (t, ts) := (FIRST_CLOCK, ComposeTs(FIRST_CLOCK + 10, 1));
    if i == 0 then State(0, 0, 0, 0, [])
    else if i == 1 then State(0, t, 0, t + 1, [])
    else if i == 2 then State(0, t + 10, 0, t + 1, [])
    else if i == 3 then State(0, t + 10, 1, t + 1, [ts])
    else if i == 4 then State(t + 1, t + 2, 0, t + 3, [ts])
    else if i == 5 then State(t + 1, t + 10, 0, t + 11, [ts])
    else State(t + 1, t + 10, 1, t + 11, [ts, ts])
  }

  lemma UnsavedStart()
    ensures Next(UnsavedState(0), UNSAVED_RUN[0]) == UnsavedState(1)
  {
    hide ComposeTs;
    SyncIsMonotoneIff(0, FIRST_CLOCK);
  }

  lemma UnsavedUpdate()
    ensures Next(UnsavedState(1), UNSAVED_RUN[1]) == UnsavedState(2)
  {
    hide ComposeTs, Advanced;
    SavesIff(0, FIRST_CLOCK + 10);
    UpdateAdvances(UnsavedState(1), FIRST_CLOCK + 10);
  }

  lemma FirstIssue()
    ensures Next(UnsavedState(2), UNSAVED_RUN[2]) == UnsavedState(3)
  {
    hide ComposeTs;
  }

  lemma EarlyRestart()
    ensures Next(UnsavedState(3), UNSAVED_RUN[3]) == UnsavedState(4)
  {
    hide ComposeTs;
    SyncIsMonotoneIff(FIRST_CLOCK + 1, FIRST_CLOCK + 1);
  }

  lemma SavedUpdate()
    ensures Next(UnsavedState(4), UNSAVED_RUN[4]) == UnsavedState(5)
  {
    hide ComposeTs, Advanced;
    SavesIff(FIRST_CLOCK + 1, FIRST_CLOCK + 10);
    UpdateAdvances(UnsavedState(4), FIRST_CLOCK + 10);
  }

  lemma SecondIssue()
    ensures Next(UnsavedState(5), UNSAVED_RUN[5]) == UnsavedState(6)
  {
    hide ComposeTs;
  }

  lemma NoUnsavedStep()
    ensures UnsavedState(0) == State(0, 0, 0, 0, [])
  {
  }

  lemma {:induction false} UnsavedStates(i: nat)
    requires i <= 6
    ensures After(0, UNSAVED_RUN[..i]) == UnsavedState(i)
  {
    hide After, Next, UnsavedState;
    if i > 0 {
      UnsavedStates(i - 1);
      assert UNSAVED_RUN[..i][..i - 1] == UNSAVED_RUN[..i - 1] && UNSAVED_RUN[..i][i - 1] == UNSAVED_RUN[i - 1];
    }
    AfterIs(0, UNSAVED_RUN[..i]);
    if i == 0 { NoUnsavedStep(); }
    UnsavedStart();
    UnsavedUpdate();
    FirstIssue();
    EarlyRestart();
    SavedUpdate();
    SecondIssue();
  }

  /** Where the guard fails, the update is not saved, and a restart whose clock is not behind the saved value
      issues an old timestamp again. */
  lemma UnsavedExample()
    ensures !SavedStep(After(0, UNSAVED_RUN[..1]), UNSAVED_RUN[1])
    ensures var issued := After(0, UNSAVED_RUN).issued; |issued| == 2 && issued[0] == issued[1]
  {
    hide After, ComposeTs, Advanced;
    UnsavedStates(1);
    UnsavedStates(6);
    assert UNSAVED_RUN[..6] == UNSAVED_RUN;
    UpdateAdvances(UnsavedState(1), FIRST_CLOCK + 10);
    SavesIff(0, FIRST_CLOCK + 10);
  }

  // ---- the oracle in place --------------------------------------------------------------------------

  /** A try issues exactly while the logical part is not used up. */
  lemma GetMoves(s: State)
    requires 0 < s.physical < PHYSICAL_BOUND && s.logical < TWO_63
    ensures var s' := Next(s, Get); s'.physical == s.physical && s'.logical == s.logical + 1
    ensures Next(s, Get).issued == if s.logical < 0x4_0000 then s.issued + [0x4_0000 * s.physical + s.logical + 1] else s.issued
  {
  }

  lemma UpdateMoves(s: State, now: nat)
    requires Ordered(s) && s.physical < PHYSICAL_BOUND && now < PHYSICAL_BOUND
    ensures var s' := Next(s, Update(now));
            Ordered(s') && s'.issued == s.issued && s'.logical <= s.logical
  {
  }

  /** The background thread has not come up to place `n`. */
  predicate NoneUpTo(clocks: seq<Option<nat>>, n: nat)
    requires n <= |clocks|
  {
    forall j :: 0 <= j < n ==> clocks[j].None?
  }

  /** It comes at place `i` first. */
  predicate IsFirst(clocks: seq<Option<nat>>, i: int) {
    0 <= i < |clocks| && NoneUpTo(clocks, i) && clocks[i].Some?
  }

  /** The physical part after an update that raises it. */
  function Raised(physical: nat, now: nat): nat {
    if now > physical + 1 then now else physical + 1
  }

  /** The clock is a parameter; each method below that takes the latch is one atomic step. */
  class Oracle {
    var lastTs: nat
    var physical: nat
    var logical: nat
    var file: nat
    ghost var issued: seq<nat>

    ghost function View(): State
      reads this
    {
      State(lastTs, physical, logical, file, issued)
    }

    /** An oracle that has not started yet. */
    constructor (file: nat)
      ensures View() == State(0, 0, 0, file, [])
    {
      lastTs, physical, logical, this.file, issued := 0, 0, 0, file, [];
    }

    method SyncTimestamp(now: nat)
      requires now < TWO_64 && file < TWO_64
      modifies this
      ensures View() == Next(old(View()), Restart(now))
    {
      lastTs := file;
      var next := now;
      if Minus(next, lastTs) < UPDATE_GUARD {
        next := (lastTs + UPDATE_GUARD) % TWO_64;
      }
      var save := (next + SAVE_INTERVAL) % TWO_64;
      file := save;
      physical := next;
      logical := 0;
    }

    method UpdateTimestamp(now: nat)
      requires now < TWO_64 && physical < TWO_64
      modifies this
      ensures View() == Next(old(View()), Update(now))
    {
      var jetLag := ToInt64(Minus(now, physical));
      var next;
      if jetLag > UPDATE_GUARD {
        next := now;
      } else if logical > MAX_LOGICAL / 2 {
        next := (physical + 1) % TWO_64;
      } else {
        return;
      }
      if ToInt32(Minus(lastTs, next)) <= UPDATE_GUARD {
        file := (next + SAVE_INTERVAL) % TWO_64;
      }
      physical := next;
      logical := 0;
    }

    /** One try to draw a timestamp. */
    method TryGet() returns (ok: bool, ts: nat)
      modifies this`logical, this`issued
      ensures View() == Next(old(View()), Get)
      ensures ok ==> issued == old(issued) + [ts]
      ensures !ok ==> issued == old(issued)
    {
      ts := 0;
      logical := (logical + 1) % TWO_64;
      var logic := logical;
      if physical == 0 {
        return false, 0;
      }
      if logic > MAX_LOGICAL {
        return false, 0;
      }
      ts := ComposeTs(physical, logic);
      issued := issued + [ts];
      return true, ts;
    }

    /** Draws a timestamp, trying a hundred times; between two tries the background thread may update, by the clock
        that `clocks` gives for it. The first try issues unless the logical part is used up. Then it is the first try
        after an update that does, and if no update comes in time, the result is zero and nothing is issued. */
    method GetTimestamp(clocks: seq<Option<nat>>) returns (ts: nat)
      requires Ordered(View()) && 0 < physical < PHYSICAL_BOUND - 1 && logical + MAX_RETRY < TWO_63
      requires |clocks| == MAX_RETRY && forall i :: 0 <= i < MAX_RETRY && clocks[i].Some? ==> clocks[i].value < PHYSICAL_BOUND
      modifies this
      ensures Ordered(View())
      ensures old(logical) < 0x4_0000 ==> ts == 0x4_0000 * old(physical) + old(logical) + 1
      ensures forall i :: old(logical) >= 0x4_0000 && i < 99 && IsFirst(clocks, i) ==>
                ts == 0x4_0000 * Raised(old(physical), clocks[i].value) + 1
      ensures if old(logical) < 0x4_0000 || exists i :: i < 99 && IsFirst(clocks, i) then issued == old(issued) + [ts] && ts > 0
              else issued == old(issued) && ts == 0
    {
      hide Ordered, Next;
      for i := 0 to MAX_RETRY
        invariant Ordered(View()) && issued == old(issued) && (i > 0 ==> old(logical) >= MAX_LOGICAL)
        invariant if NoneUpTo(clocks, i) then physical == old(physical) && logical == old(logical) + i
                  else IsFirst(clocks, i - 1) && logical == 0 && physical == Raised(old(physical), clocks[i - 1].value)
      {
        ghost var s := View();
        GetKeepsOrder(s);
        GetMoves(s);
        var ok;
        ok, ts := TryGet();
        assert ok ==> issued[|s.issued|] == ts;
        if ok {
          return;
        }
        if clocks[i].Some? {
          s := View();
          UpdateAdvances(s, clocks[i].value);
          UpdateMoves(s, clocks[i].value);
          UpdateTimestamp(clocks[i].value);
        }
      }
      return 0;
    }
  }
}
