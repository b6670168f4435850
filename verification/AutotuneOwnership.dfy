/**
 * Who owns agents.defaults.maxConcurrent in openclaw.json. Autotune writes a key that operators edit too, and keeps its
 * claim in a ledger it may fail to write; a process may die between any two of its writes.
 */
module AutotuneOwnership {
  import opened Wrappers

  const LEGACY_CAP: int := 64
  const SUBAGENT_DELTA: int := 2

  /** A JSON value, as far as the code tells values apart. */
  datatype Value = Unset | Null | Number(n: int) | Other(text: string)

  datatype Config = Config(maxConcurrent: Value, subagents: Value)

  /** The ledger's record of the key. */
  datatype Record = Record(lastApplied: Option<int>, ownedFromAbsent: bool, intent: Option<int>)

  /** The ledger in memory, the ledger on disk, and the operator's file. */
  datatype State = State(memory: Option<Record>, disk: Option<Record>, config: Config)

  datatype Change = Change(from: Value, to: Value)

  datatype Crash = NoCrash | AfterIntent | AfterUpdate | AfterConfirm

  /** What goes wrong during one apply, and what an operator writes between its intent and its config update. */
  datatype Faults = Faults(intentWritten: bool, edit: Option<Config>, updateFails: bool, confirmWritten: bool,
                           finalWritten: bool, crash: Crash)

  datatype Event =
    | Edit(config: Config)
    | Restart(readable: bool)
    | Stamp(written: bool)
    | Apply(active: bool, suppressed: bool, target: int, faults: Faults)

  datatype Action = Adopted | Reapplied | Recovered | NotOurs

  function AsValue(n: Option<int>): Value {
    if n.Some? then Number(n.value) else Unset
  }

  predicate IsAbsent(v: Value) {
    v == Unset || v == Null
  }

  // ---- The class ----

  class Autotune {
    var memory: Option<Record>
    var disk: Option<Record>
    var config: Config

    constructor (config: Config)
      ensures Snapshot() == State(None, None, config)
    {
      memory, disk, this.config := None, None, config;
    }

    function Snapshot(): State
      reads this
    {
      State(memory, disk, config)
    }

    method PersistLedger(works: bool) returns (written: bool)
      modifies this`disk
      ensures written == works
      ensures disk == if works then memory else old(disk)
    {
      if works {
        disk := memory;
      }
      written := works;
    }

    /** The process dies: what it knew is what the next one reads. */
    method Die()
      modifies this`memory
      ensures memory == disk
    {
      memory := disk;
    }

    /** The revert's change to the config, or none. */
    method Revert(ownership: Option<Record>) returns (change: Option<Change>)
      modifies this`config
      ensures config == Reverted(ownership, old(config))
      ensures change == if config == old(config) then None else Some(Change(old(config).maxConcurrent, config.maxConcurrent))
    {
      var current := config.maxConcurrent;
      var confirmed := if ownership.Some? && ownership.value.intent.None? then ownership else None;
      var recoveredFromIntent :=
        ownership.Some? && ownership.value.intent.Some? && current == Number(ownership.value.intent.value);
      var attributable := (confirmed.Some? && current == AsValue(confirmed.value.lastApplied)) || recoveredFromIntent;
      var ownedFromAbsent :=
        if confirmed.Some? then confirmed.value.ownedFromAbsent
        else recoveredFromIntent && (ownership.value.ownedFromAbsent || ownership.value.lastApplied.None?);
      change := None;
      if attributable && ownedFromAbsent {
        if current != Unset {
          change := Some(Change(current, Unset));
        }
        config := config.(maxConcurrent := Unset);
      } else if attributable && current.Number? && current.n > LEGACY_CAP {
        change := Some(Change(current, Number(LEGACY_CAP)));
        config := config.(maxConcurrent := Number(LEGACY_CAP));
        if config.subagents.Number? && config.subagents.n > LEGACY_CAP - SUBAGENT_DELTA {
          config := config.(subagents := Number(LEGACY_CAP - SUBAGENT_DELTA));
        }
      }
    }

    /** The decision an apply takes under the config's lock. */
    method Claim(ownership: Option<Record>, target: int, intentPersisted: bool) returns (action: Action)
      modifies this`config
      ensures action == Decision(ownership, old(config).maxConcurrent, intentPersisted)
      ensures config == if action == NotOurs then old(config) else old(config).(maxConcurrent := Number(target))
    {
      var current := config.maxConcurrent;
      if current == Unset || current == Null {
        if !intentPersisted {
          return NotOurs;
        }
        config := config.(maxConcurrent := Number(target));
        return Adopted;
      }
      if ownership.Some? && ownership.value.intent.None? && current == AsValue(ownership.value.lastApplied) {
        config := config.(maxConcurrent := Number(target));
        return Reapplied;
      }
      if ownership.Some? && ownership.value.intent.Some? && current == Number(ownership.value.intent.value) {
        config := config.(maxConcurrent := Number(target));
        return Recovered;
      }
      action := NotOurs;
    }

    /**
     * One apply, from the write-ahead intent to the ledger's last write. A change of the operator's file is always
     * announced: without one, the file is as the update found it.
     */
    method ApplyConcurrency(active: bool, suppressed: bool, target: int, faults: Faults) returns (change: Option<Change>)
      modifies this
      ensures Snapshot() == Step(old(Snapshot()), Apply(active, suppressed, target, faults))
      ensures change.None? && (faults.crash == NoCrash || faults.crash == AfterConfirm) ==>
        config == old(config) || faults.edit == Some(config)
    {
      change := None;
      var ownership := memory;
      if active && suppressed {
        if faults.edit.Some? { config := faults.edit.value; }
      } else if !active {
        if faults.edit.Some? { config := faults.edit.value; }
        if !faults.updateFails {
          change := Revert(ownership);
          memory := None;
        }
        if faults.crash == AfterUpdate {
          Die();
          return;
        }
      } else {
        memory := Some(if ownership.Some? then ownership.value.(intent := Some(target)) else Record(None, false, Some(target)));
        var intentPersisted := PersistLedger(faults.intentWritten);
        if faults.crash == AfterIntent {
          Die();
          return;
        }
        if faults.edit.Some? { config := faults.edit.value; }
        if faults.updateFails {
          memory := if ownership.Some? then Some(ownership.value.(intent := None)) else None;
        } else {
          var current := config.maxConcurrent;
          var action := Claim(ownership, target, intentPersisted);
          if faults.crash == AfterUpdate {
            Die();
            return;
          }
          if action == NotOurs {
            memory := None;
          } else {
            var owned :=
              if action == Adopted then true
              else if action == Recovered then ownership.value.lastApplied.None? || ownership.value.ownedFromAbsent
              else ownership.value.ownedFromAbsent;
            memory := Some(Record(Some(target), owned, None));
            if action == Recovered || current != Number(target) {
              change := Some(Change(current, Number(target)));
            }
          }
        }
        var _ := PersistLedger(faults.confirmWritten);
        if faults.crash == AfterConfirm {
          Die();
          return;
        }
      }
      var _ := PersistLedger(faults.finalWritten);
    }
  }

  // ---- Its specification, over whole histories ----

  /** Autotune can show the value is its own: its last confirmed write, or one it was about to make. */
  predicate IsAttributable(ownership: Option<Record>, current: Value) {
    ownership.Some? &&
    (if ownership.value.intent.Some? then current == Number(ownership.value.intent.value)
     else current == AsValue(ownership.value.lastApplied))
  }

  predicate IsFromAbsent(record: Record) {
    record.ownedFromAbsent || (record.intent.Some? && record.lastApplied.None?)
  }

  function Capped(v: Value, cap: int): Value {
    if v.Number? && v.n > cap then Number(cap) else v
  }

  function Reverted(ownership: Option<Record>, config: Config): Config {
    if !IsAttributable(ownership, config.maxConcurrent) then config
    else if IsFromAbsent(ownership.value) then config.(maxConcurrent := Unset)
    else if Capped(config.maxConcurrent, LEGACY_CAP) == config.maxConcurrent then config
    else Config(Capped(config.maxConcurrent, LEGACY_CAP), Capped(config.subagents, LEGACY_CAP - SUBAGENT_DELTA))
  }

  function Decision(ownership: Option<Record>, current: Value, intentPersisted: bool): Action {
    if IsAbsent(current) then (if intentPersisted then Adopted else NotOurs)
    else if !IsAttributable(ownership, current) then NotOurs
    else if ownership.value.intent.Some? then Recovered
    else Reapplied
  }

  function WithIntent(ownership: Option<Record>, target: int): Option<Record> {
    match ownership
    case Some(record) => Some(record.(intent := Some(target)))
    case None => Some(Record(None, false, Some(target)))
  }

  function Confirmed(ownership: Option<Record>, action: Action, target: int): Option<Record> {
    if action == NotOurs then None
    else Some(Record(Some(target), action == Adopted || (ownership.Some? && OwnedAfter(ownership.value, action)), None))
  }

  function OwnedAfter(record: Record, action: Action): bool {
    record.ownedFromAbsent || (action == Recovered && record.lastApplied.None?)
  }

  function Persist(s: State, works: bool): State {
    if works then s.(disk := s.memory) else s
  }

  function EditedTo(s: State, edit: Option<Config>): State {
    if edit.Some? then s.(config := edit.value) else s
  }

  function Update(s: State, ownership: Option<Record>, target: int, faults: Faults): State {
    if faults.updateFails then
      s.(memory := if ownership.Some? then Some(ownership.value.(intent := None)) else None)
    else
      var action := Decision(ownership, s.config.maxConcurrent, faults.intentWritten);
      State(Confirmed(ownership, action, target), s.disk,
            if action == NotOurs then s.config else s.config.(maxConcurrent := Number(target)))
  }

  function Died(s: State): State {
    s.(memory := s.disk)
  }

  function ActiveApply(s: State, target: int, faults: Faults): State {
    var begun := Persist(s.(memory := WithIntent(s.memory, target)), faults.intentWritten);
    if faults.crash == AfterIntent then Died(begun) else
    var updated := Update(EditedTo(begun, faults.edit), s.memory, target, faults);
    if faults.crash == AfterUpdate && !faults.updateFails then Died(updated) else
    var confirmed := Persist(updated, faults.confirmWritten);
    if faults.crash == AfterConfirm then Died(confirmed) else Persist(confirmed, faults.finalWritten)
  }

  function Disable(s: State, faults: Faults): State {
    var edited := EditedTo(s, faults.edit);
    var reverted := if faults.updateFails then edited else State(None, s.disk, Reverted(s.memory, edited.config));
    if faults.crash == AfterUpdate then Died(reverted) else Persist(reverted, faults.finalWritten)
  }

  function Step(s: State, event: Event): State {
    match event
    case Edit(config) => s.(config := config)
    case Restart(readable) => s.(memory := if readable then s.disk else None)
    case Stamp(written) => Persist(s, written)
    case Apply(active, suppressed, target, faults) =>
      if !active then Disable(s, faults)
      else if suppressed then Persist(EditedTo(s, faults.edit), faults.finalWritten)
      else ActiveApply(s, target, faults)
  }

  function Run(s: State, events: seq<Event>): State
    decreases |events|
  {
    if events == [] then s else Run(Step(s, events[0]), events[1..])
  }

  lemma {:induction false} RunOfTwoParts(s: State, first: seq<Event>, second: seq<Event>)
    ensures Run(s, first + second) == Run(Run(s, first), second)
    decreases |first|
  {
    if first == [] {
      assert first + second == second;
    } else {
      assert (first + second)[1..] == first[1..] + second;
      RunOfTwoParts(Step(s, first[0]), first[1..], second);
    }
  }

  function Targets(events: seq<Event>): (r: set<int>)
    ensures forall e :: e in events && e.Apply? ==> e.target in r
  {
    set e | e in events && e.Apply? :: e.target
  }

  // ---- What the ledger may say ----

  predicate RecordsOnly(record: Option<Record>, targets: set<int>) {
    record.Some? ==>
      (record.value.lastApplied.Some? ==> record.value.lastApplied.value in targets) &&
      (record.value.intent.Some? ==> record.value.intent.value in targets) &&
      (record.value.lastApplied.Some? ==> record.value.ownedFromAbsent)
  }

  /** Every value on record is one autotune computed; whoever wrote one owns it from absent. */
  predicate LedgerIsSound(s: State, targets: set<int>) {
    RecordsOnly(s.memory, targets) && RecordsOnly(s.disk, targets)
  }

  lemma StepKeepsLedgerSound(s: State, event: Event, targets: set<int>)
    requires LedgerIsSound(s, targets)
    requires event.Apply? ==> event.target in targets
    ensures LedgerIsSound(Step(s, event), targets)
  {
  }

  lemma {:induction false} LedgerStaysSound(s: State, events: seq<Event>, targets: set<int>)
    requires LedgerIsSound(s, targets)
    requires Targets(events) <= targets
    ensures LedgerIsSound(Run(s, events), targets)
    decreases |events|
  {
    if events != [] {
      assert events[0] in events;
      StepKeepsLedgerSound(s, events[0], targets);
      assert forall e :: e in events[1..] ==> e in events;
      LedgerStaysSound(Step(s, events[0]), events[1..], targets);
    }
  }

  /** From an empty ledger no disable ever clamps: it deletes a value of autotune's own, or changes nothing. */
  lemma ClampIsUnreachable(config: Config, events: seq<Event>, faults: Faults)
    ensures
      var s := Run(State(None, None, config), events);
      var found := EditedTo(s, faults.edit).config;
      var left := Disable(s, faults).config;
      left == found || (left == found.(maxConcurrent := Unset) && exists t :: t in Targets(events) && found.maxConcurrent == Number(t))
  {
    LedgerStaysSound(State(None, None, config), events, Targets(events));
  }

  // ---- The operator's word ----

  predicate IsEdit(e: Event) {
    e.Edit? || (e.Apply? && e.faults.edit.Some?)
  }

  predicate IsOperators(v: Value, targets: set<int>) {
    !IsAbsent(v) && forall t :: t in targets ==> v != Number(t)
  }

  lemma {:induction false} OperatorsValueStays(s: State, events: seq<Event>, targets: set<int>)
    requires LedgerIsSound(s, targets) && Targets(events) <= targets
    requires IsOperators(s.config.maxConcurrent, targets)
    requires forall e :: e in events ==> !IsEdit(e)
    ensures Run(s, events).config == s.config
    decreases |events|
  {
    if events != [] {
      assert events[0] in events;
      StepKeepsLedgerSound(s, events[0], targets);
      assert forall e :: e in events[1..] ==> e in events;
      OperatorsValueStays(Step(s, events[0]), events[1..], targets);
    }
  }

  /** The operator's file becomes `config`: between two applies, or inside one that lives to update it. */
  predicate WritesEdit(e: Event, config: Config) {
    match e
    case Edit(c) => c == config
    case Apply(active, suppressed, _, f) => f.edit == Some(config) && (!active || suppressed || f.crash != AfterIntent)
    case _ => false
  }

  lemma EditInsideIsKept(s: State, e: Event, edit: Config, targets: set<int>)
    requires LedgerIsSound(s, targets) && IsOperators(edit.maxConcurrent, targets) && WritesEdit(e, edit)
    requires e.Apply? ==> e.target in targets
    ensures Step(s, e).config == edit
  {
  }

  /**
   * An operator's value that autotune never computes outlives every apply, disable, crash, restart and failed write that
   * follows, whatever happened before it was written, and also when it was written in the middle of an apply.
   */
  lemma OperatorsValueIsNeverTouched(original: Config, before: seq<Event>, e: Event, edit: Config, after: seq<Event>)
    requires WritesEdit(e, edit)
    requires IsOperators(edit.maxConcurrent, Targets(before + [e] + after))
    requires forall a :: a in after ==> !IsEdit(a)
    ensures Run(State(None, None, original), before + [e] + after).config == edit
  {
    var s0 := State(None, None, original);
    var events := before + [e] + after;
    assert forall x :: x in before || x == e || x in after ==> x in events;
    RunOfTwoParts(s0, before + [e], after);
    RunOfTwoParts(s0, before, [e]);
    LedgerStaysSound(s0, before, Targets(events));
    var s := Run(s0, before);
    assert Run(s, [e]) == Run(Step(s, e), [e][1..]);
    EditInsideIsKept(s, e, edit, Targets(events));
    StepKeepsLedgerSound(s, e, Targets(events));
    OperatorsValueStays(Step(s, e), after, Targets(events));
  }

  /** An explicit null does not count as an operator's value: it is adopted like an absent key, and deleted on disable. */
  lemma NullIsNotKept(target: int)
    ensures
      var s := State(None, None, Config(Null, Unset));
      var s' := Run(s, [Apply(true, false, target, NoFaults()), Apply(false, false, target, NoFaults())]);
      s'.config == Config(Unset, Unset)
  {
    var events := [Apply(true, false, target, NoFaults()), Apply(false, false, target, NoFaults())];
    var s := State(None, None, Config(Null, Unset));
    var s1 := Step(s, events[0]);
    assert Run(s, events) == Run(s1, events[1..]);
    assert Run(s1, events[1..]) == Run(Step(s1, events[1]), events[1..][1..]);
  }

  // ---- Taking autotune's own value back ----

  function NoFaults(): Faults {
    Faults(true, None, false, true, true, NoCrash)
  }

  /** Autotune holds nothing and the file is the operator's, or it put its value where there was none and knows it. */
  predicate Settled(s: State, original: Config) {
    (s.memory.None? && s.config == original) || IsOwned(s, original)
  }

  predicate IsOwned(s: State, original: Config) {
    original.maxConcurrent == Unset && s.memory.Some? && s.memory.value.intent.None? && s.memory.value.ownedFromAbsent &&
    s.memory.value.lastApplied.Some? && s.config == original.(maxConcurrent := Number(s.memory.value.lastApplied.value))
  }

  /**
   * No crash, no edit. Config updates may fail. A ledger write may fail too, as long as no restart rereads the ledger.
   */
  predicate IsCalm(event: Event, durable: bool) {
    match event
    case Edit(_) => false
    case Restart(readable) => durable && readable
    case Stamp(written) => durable ==> written
    case Apply(_, _, _, f) =>
      f.crash == NoCrash && f.edit.None? && (durable ==> f.intentWritten && f.confirmWritten && f.finalWritten)
  }

  lemma CalmStepKeepsSettled(s: State, event: Event, durable: bool, original: Config)
    requires original.maxConcurrent != Null && Settled(s, original) && IsCalm(event, durable)
    requires durable ==> s.disk == s.memory
    ensures Settled(Step(s, event), original)
    ensures durable ==> Step(s, event).disk == Step(s, event).memory
  {
  }

  lemma {:induction false} CalmRunKeepsSettled(s: State, events: seq<Event>, durable: bool, original: Config)
    requires original.maxConcurrent != Null && Settled(s, original)
    requires forall e :: e in events ==> IsCalm(e, durable)
    requires durable ==> s.disk == s.memory
    ensures Settled(Run(s, events), original)
    ensures durable ==> Run(s, events).disk == Run(s, events).memory
    decreases |events|
  {
    if events != [] {
      assert events[0] in events;
      CalmStepKeepsSettled(s, events[0], durable, original);
      assert forall e :: e in events[1..] ==> e in events;
      CalmRunKeepsSettled(Step(s, events[0]), events[1..], durable, original);
    }
  }

  /**
   * However many applies, suppressed ones, disables and failed updates came before, a disable gives the operator's file
   * back as it was.
   */
  lemma DisableRestores(original: Config, events: seq<Event>, durable: bool, target: int, faults: Faults)
    requires original.maxConcurrent != Null
    requires forall e :: e in events ==> IsCalm(e, durable)
    requires faults.edit.None? && !faults.updateFails
    ensures Run(State(None, None, original), events + [Apply(false, false, target, faults)]).config == original
  {
    var s0 := State(None, None, original);
    var last := [Apply(false, false, target, faults)];
    CalmRunKeepsSettled(s0, events, durable, original);
    RunOfTwoParts(s0, events, last);
    var s := Run(s0, events);
    assert Run(s, last) == Step(s, last[0]);
  }

  /** An apply that puts a value where it finds none. */
  predicate Adopts(e: Event) {
    e.Apply? && e.active && !e.suppressed && e.faults.intentWritten && !e.faults.updateFails
  }

  lemma {:induction false} NullStaysGone(s: State, events: seq<Event>)
    requires s.config.maxConcurrent != Null && forall e :: e in events ==> !IsEdit(e)
    ensures Run(s, events).config.maxConcurrent != Null
    decreases |events|
  {
    if events != [] {
      assert events[0] in events;
      assert forall e :: e in events[1..] ==> e in events;
      NullStaysGone(Step(s, events[0]), events[1..]);
    }
  }

  lemma {:induction false} NullIsHeldUntilAdopted(s: State, events: seq<Event>, durable: bool)
    requires s.memory.None? && s.config.maxConcurrent == Null && (durable ==> s.disk.None?)
    requires forall e :: e in events ==> IsCalm(e, durable)
    ensures
      var r := Run(s, events);
      if exists e :: e in events && Adopts(e) then r.config.maxConcurrent != Null
      else r.config == s.config && r.memory.None? && (durable ==> r.disk.None?)
    decreases |events|
  {
    if events != [] {
      var first, rest := events[0], events[1..];
      assert events == [first] + rest && first in events && IsCalm(first, durable);
      assert forall e :: e in events <==> e == first || e in rest;
      if Adopts(first) {
        NullStaysGone(Step(s, first), rest);
      } else {
        NullIsHeldUntilAdopted(Step(s, first), rest, durable);
      }
    }
  }

  /**
   * A calm history and a disable give the operator's file back exactly when it held no explicit null, or no apply ever
   * adopted that null.
   */
  lemma CalmHistoryRestoresExactlyWhen(original: Config, events: seq<Event>, durable: bool, target: int, faults: Faults)
    requires forall e :: e in events ==> IsCalm(e, durable)
    requires faults.edit.None? && !faults.updateFails
    ensures Run(State(None, None, original), events + [Apply(false, false, target, faults)]).config == original <==>
      original.maxConcurrent != Null || forall e :: e in events ==> !Adopts(e)
  {
    var s0, last := State(None, None, original), [Apply(false, false, target, faults)];
    if original.maxConcurrent != Null {
      DisableRestores(original, events, durable, target, faults);
    } else {
      NullIsHeldUntilAdopted(s0, events, durable);
      RunOfTwoParts(s0, events, last);
      var s := Run(s0, events);
      assert Run(s, last) == Run(Step(s, last[0]), last[1..]);
      if exists e :: e in events && Adopts(e) {
        NullStaysGone(s, last);
      }
    }
  }

  // ---- After a crash ----

  /**
   * What a crashed apply leaves behind can be told apart later. An intent on disk names the value the file now has if
   * autotune wrote it, and another value if it did not. `wrote`: the crash came after the config update.
   */
  predicate CrashIsRepairable(s: State, target: int, wrote: bool, faults: Faults) {
    if s.memory.Some?
    then s.memory.value.lastApplied == Some(target) || (wrote == faults.intentWritten)
    else faults.intentWritten ==> s.config.maxConcurrent != Number(target)
  }

  function CrashedApply(target: int, wrote: bool, faults: Faults): Event {
    Apply(true, false, target, faults.(crash := if wrote then AfterUpdate else AfterIntent, edit := None, updateFails := false))
  }

  /** A disable after the crash gives the operator's file back exactly when the crash is repairable. */
  lemma DisableRepairsCrashExactlyWhen(s: State, original: Config, target: int, wrote: bool, faults: Faults, disabling: Faults)
    requires original.maxConcurrent != Null && Settled(s, original) && s.disk == s.memory
    requires disabling.edit.None? && !disabling.updateFails
    ensures
      var crashed := Step(s, CrashedApply(target, wrote, faults));
      Step(crashed, Apply(false, false, target, disabling)).config == original <==> CrashIsRepairable(s, target, wrote, faults)
  {
  }

  /** So does the next apply, whatever target it computes: the state it leaves is settled. */
  lemma ApplyRepairsCrashExactlyWhen(s: State, original: Config, target: int, wrote: bool, faults: Faults, next: int, applying: Faults)
    requires original.maxConcurrent != Null && Settled(s, original) && s.disk == s.memory
    requires applying.edit.None? && !applying.updateFails && applying.crash == NoCrash
    ensures
      var crashed := Step(s, CrashedApply(target, wrote, faults));
      Settled(Step(crashed, Apply(true, false, next, applying)), original) <==> CrashIsRepairable(s, target, wrote, faults)
  {
  }

  /** An operator who set the very number autotune was about to write loses it when the process died in between. */
  lemma EqualOperatorValueIsClaimed(target: int, next: int)
    ensures
      var s := State(None, None, Config(Number(target), Unset));
      var crashed := Step(s, CrashedApply(target, false, NoFaults()));
      Step(crashed, Apply(true, false, next, NoFaults())).config.maxConcurrent == Number(next) &&
      Step(crashed, Apply(false, false, next, NoFaults())).config.maxConcurrent == Unset
  {
  }

  /** A disable whose config update fails keeps the provenance, so the next one repairs the crash under the same condition. */
  lemma FailedDisableLosesNothing(s: State, original: Config, target: int, wrote: bool, faults: Faults, failing: Faults, disabling: Faults)
    requires original.maxConcurrent != Null && Settled(s, original) && s.disk == s.memory
    requires failing.edit.None? && failing.updateFails
    requires disabling.edit.None? && !disabling.updateFails
    ensures
      var crashed := Step(s, CrashedApply(target, wrote, faults));
      var failed := Step(crashed, Apply(false, false, target, failing));
      failed.config == crashed.config && failed.memory == crashed.memory &&
      (Step(failed, Apply(false, false, target, disabling)).config == original <==> CrashIsRepairable(s, target, wrote, faults))
  {
    DisableRepairsCrashExactlyWhen(s, original, target, wrote, faults, disabling);
  }

  function FailedApply(next: int, failing: Faults): Event {
    Apply(true, false, next, failing.(updateFails := true, edit := None, crash := NoCrash))
  }

  /** What a failed update after a crash leaves in memory: the confirmed ownership, or a record that claims nothing. */
  lemma FailedUpdateForgetsIntent(s: State, original: Config, target: int, wrote: bool, faults: Faults, next: int, failing: Faults)
    requires original.maxConcurrent != Null && Settled(s, original) && s.disk == s.memory
    ensures
      var crashed := Step(s, CrashedApply(target, wrote, faults));
      var failed := Step(crashed, FailedApply(next, failing));
      failed.config == crashed.config &&
      (s.memory.Some? ==> failed.memory == s.memory) &&
      (s.memory.None? ==> failed.memory in {None, Some(Record(None, false, None))}) &&
      (crashed.config != s.config ==> crashed.config.maxConcurrent == Number(target) && failed.memory.Some?)
  {
  }

  /**
   * An apply whose config update fails right after a crash forgets the intent. What follows gives the file back, or takes
   * the value over, exactly when the crashed apply had not changed the file.
   */
  lemma FailedUpdateRepairsExactlyWhen(s: State, original: Config, target: int, wrote: bool, faults: Faults, next: int, failing: Faults,
                                       later: int, following: Faults)
    requires original.maxConcurrent != Null && Settled(s, original) && s.disk == s.memory
    requires following.edit.None? && !following.updateFails && following.crash == NoCrash
    ensures
      var crashed := Step(s, CrashedApply(target, wrote, faults));
      var failed := Step(crashed, FailedApply(next, failing));
      (Step(failed, Apply(false, false, later, following)).config == original <==> crashed.config == s.config) &&
      (Settled(Step(failed, Apply(true, false, later, following)), original) <==> crashed.config == s.config)
  {
    FailedUpdateForgetsIntent(s, original, target, wrote, faults, next, failing);
    var crashed := Step(s, CrashedApply(target, wrote, faults));
    var failed := Step(crashed, FailedApply(next, failing));
    CrashedValue(s, original, target, wrote, faults);
    AfterForgetting(s, failed, original, later, following);
  }

  lemma CrashedValue(s: State, original: Config, target: int, wrote: bool, faults: Faults)
    requires original.maxConcurrent != Null && Settled(s, original)
    ensures
      var config := Step(s, CrashedApply(target, wrote, faults)).config;
      config == s.config ||
      (original.maxConcurrent == Unset && config.maxConcurrent != s.config.maxConcurrent && config.maxConcurrent.Number? &&
       config.subagents == s.config.subagents)
  {
  }

  /** A state whose memory claims no more than the settled one is repaired exactly when its file is that one's. */
  lemma AfterForgetting(s: State, failed: State, original: Config, later: int, following: Faults)
    requires original.maxConcurrent != Null && Settled(s, original)
    requires s.memory.Some? ==> failed.memory == s.memory
    requires s.memory.None? ==> failed.memory in {None, Some(Record(None, false, None))}
    requires failed.config == s.config ||
      (original.maxConcurrent == Unset && failed.config.maxConcurrent != s.config.maxConcurrent && failed.config.maxConcurrent.Number?)
    requires following.edit.None? && !following.updateFails && following.crash == NoCrash
    ensures Step(failed, Apply(false, false, later, following)).config == original <==> failed.config == s.config
    ensures Settled(Step(failed, Apply(true, false, later, following)), original) <==> failed.config == s.config
  {
  }

  /** When a crashed apply had changed the file, in terms of the state before it. */
  lemma CrashChangedTheFileExactlyWhen(s: State, original: Config, target: int, wrote: bool, faults: Faults)
    requires original.maxConcurrent != Null && Settled(s, original)
    ensures Step(s, CrashedApply(target, wrote, faults)).config != s.config <==>
      wrote &&
      if s.memory.Some? then s.memory.value.lastApplied != Some(target) else s.config.maxConcurrent == Unset && faults.intentWritten
  {
  }

  /** Then the value stays for good, unless autotune computes that very value again: nothing on record names it any more. */
  lemma FailedUpdateAfterCrashOrphans(s: State, original: Config, target: int, faults: Faults, next: int, failing: Faults, events: seq<Event>)
    requires original.maxConcurrent != Null && Settled(s, original) && s.disk == s.memory
    requires failing.confirmWritten || failing.finalWritten
    requires Step(s, CrashedApply(target, true, faults)).config != s.config
    requires forall e :: e in events ==> !IsEdit(e) && (e.Apply? ==> e.target != target)
    ensures
      var crashed := Step(s, CrashedApply(target, true, faults));
      var failed := Step(crashed, FailedApply(next, failing));
      Run(failed, events).config == crashed.config && crashed.config.maxConcurrent == Number(target)
  {
    var crashed := Step(s, CrashedApply(target, true, faults));
    var failed := Step(crashed, FailedApply(next, failing));
    var known := if s.memory.Some? then {s.memory.value.lastApplied.value} else {};
    OperatorsValueStays(failed, events, Targets(events) + known);
  }
}
