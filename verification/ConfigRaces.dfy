/**
 * Admission of policy configs when requests are not serialised (controllers/policyconfig_controller.go,
 * Handle): a request is checked at one moment and its config written at a later one, or never, with any
 * checks, writes and deletes in between.
 */
module ConfigRaces {
  import opened ConfigTargets
  import opened ConfigAdmission

  /** A stored config, and when it was checked and written. */
  datatype Entry = Entry(config: ConfigCRD, checked: nat, written: nat)

  /** An admitted config that is not written yet. */
  datatype Ticket = Ticket(config: ConfigCRD, checked: nat)

  datatype State = State(entries: map<string, Entry>, pending: seq<Ticket>, now: nat)

  const INITIAL := State(map[], [], 0)

  datatype Action = Check(config: ConfigCRD) | Write(i: nat) | Delete(name: string)

  function Configs(s: State): Store { map name | name in s.entries :: s.entries[name].config }

  predicate Possible(s: State, a: Action) { a.Write? ==> a.i < |s.pending| }

  ghost function Step(s: State, a: Action): State
    requires Possible(s, a)
  {
    match a
    case Check(c) =>
      s.(pending := if Admissible(Configs(s), c) then s.pending + [Ticket(c, s.now)] else s.pending, now := s.now + 1)
    case Write(i) =>
      var t := s.pending[i];
      State(s.entries[t.config.name := Entry(t.config, t.checked, s.now)], s.pending[..i] + s.pending[i + 1..],
        s.now + 1)
    case Delete(name) => s.(entries := s.entries - {name}, now := s.now + 1)
  }

  /** A config checked after another was written does not overlap it. */
  ghost predicate Seen(s: State) {
    forall a, b :: a in s.entries && b in s.entries && a != b && s.entries[a].written < s.entries[b].checked ==>
      !Overlaps(s.entries[a].config.targets, s.entries[b].config.targets)
  }

  /** The same for configs still to be written. */
  ghost predicate PendingSeen(s: State) {
    forall a, i :: a in s.entries && 0 <= i < |s.pending| && s.entries[a].written < s.pending[i].checked ==>
      a == s.pending[i].config.name || !Overlaps(s.entries[a].config.targets, s.pending[i].config.targets)
  }

  ghost predicate Inv(s: State) {
    && (forall a :: a in s.entries ==>
          && s.entries[a].config.name == a && Valid(s.entries[a].config)
          && s.entries[a].checked < s.now && s.entries[a].written < s.now)
    && (forall i :: 0 <= i < |s.pending| ==> Valid(s.pending[i].config) && s.pending[i].checked < s.now)
    && Seen(s) && PendingSeen(s)
  }

  lemma CheckKeepsInv(s: State, c: ConfigCRD)
    requires Inv(s)
    ensures Inv(Step(s, Check(c)))
  {
    hide Valid, Overlaps;
    if Admissible(Configs(s), c) {
      forall a | a in s.entries && a != c.name ensures !Overlaps(s.entries[a].config.targets, c.targets) {
        assert a in Configs(s) && Configs(s)[a] == s.entries[a].config;
      }
    }
  }

  lemma WriteKeepsInv(s: State, i: nat)
    requires Inv(s) && i < |s.pending|
    ensures Inv(Step(s, Write(i)))
  {
    hide Valid, Overlaps;
    var t := Step(s, Write(i));
    assert forall k :: 0 <= k < |t.pending| ==> t.pending[k] == s.pending[if k < i then k else k + 1];
  }

  lemma StepKeepsInv(s: State, a: Action)
    requires Inv(s) && Possible(s, a)
    ensures Inv(Step(s, a))
  {
    hide Valid, Overlaps;
    match a
    case Check(c) => CheckKeepsInv(s, c);
    case Write(i) => WriteKeepsInv(s, i);
    case Delete(_) =>
  }

  ghost predicate Runnable(s: State, run: seq<Action>)
    decreases |run|
  {
    run == [] || (Possible(s, run[0]) && Runnable(Step(s, run[0]), run[1..]))
  }

  ghost function After(s: State, run: seq<Action>): State
    requires Runnable(s, run)
    decreases |run|
  {
    if run == [] then s else After(Step(s, run[0]), run[1..])
  }

  lemma {:induction false} RunKeepsInv(s: State, run: seq<Action>)
    requires Inv(s) && Runnable(s, run)
    ensures Inv(After(s, run))
    decreases |run|
  {
    if run != [] {
      StepKeepsInv(s, run[0]);
      RunKeepsInv(Step(s, run[0]), run[1..]);
    }
  }

  /** Neither was written before the other was checked. */
  predicate Concurrent(x: Entry, y: Entry) { !(x.written < y.checked) && !(y.written < x.checked) }

  /** No two stored configs that were admitted concurrently overlap. */
  ghost predicate NoRaceLost(s: State) {
    forall a, b :: a in s.entries && b in s.entries && a != b && Concurrent(s.entries[a], s.entries[b]) ==>
      !Overlaps(s.entries[a].config.targets, s.entries[b].config.targets)
  }

  lemma InvRacesIff(s: State)
    requires Inv(s)
    ensures forall name :: name in Configs(s) ==> Valid(Configs(s)[name])
    ensures StoreInv(Configs(s)) <==> NoRaceLost(s)
  {
    hide Overlaps, Valid;
    var store := Configs(s);
    if NoRaceLost(s) {
      forall a, b | a in store && b in store && a != b ensures !Overlaps(store[a].targets, store[b].targets) {
        if s.entries[b].written < s.entries[a].checked {
          OverlapIsSymmetric(store[a], store[b]);
        }
      }
    }
    if StoreInv(store) {
      forall a, b | a in s.entries && b in s.entries && a != b
        ensures !Overlaps(s.entries[a].config.targets, s.entries[b].config.targets)
      {
        assert store[a] == s.entries[a].config && store[b] == s.entries[b].config;
      }
    }
  }

  /**
   * After any run of checks, writes and deletes, in any order, every stored config targets one sort of
   * thing, and no two overlap exactly if no two that were admitted concurrently do.
   */
  lemma RacesIff(run: seq<Action>)
    requires Runnable(INITIAL, run)
    ensures forall name :: name in Configs(After(INITIAL, run)) ==> Valid(Configs(After(INITIAL, run))[name])
    ensures StoreInv(Configs(After(INITIAL, run))) <==> NoRaceLost(After(INITIAL, run))
  {
    RunKeepsInv(INITIAL, run);
    hide Inv, StoreInv, NoRaceLost, Valid, Configs;
    InvRacesIff(After(INITIAL, run));
  }
}
