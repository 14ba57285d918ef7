/** Which onion identity a start comes up on, whatever was left on disk and wherever an earlier start stopped. */
module StartUp {
  import opened Wrappers

  type Identity(==, 0, !new)
  type StoreKey(==, 0, !new)

  /** The sealed onion key beside the state file. */
  datatype KeyFile = Absent | SealedUnder(key: StoreKey, id: Identity) | Damaged

  /** The state file, and the identity it was saved on. */
  datatype StateFile = StateFile(owner: Identity, key: StoreKey)

  /** `keystore` is the identity in the Tor client's own on-disk keystore, if there is one. */
  datatype Disk = Disk(state: Option<StateFile>, sealed: KeyFile, keystore: Option<Identity>)

  // ---------------------------------------------------------------- the decisions

  /** Any failure to read the file at all counts as a file that is not there. */
  function ReadOnionKey(d: Disk, key: StoreKey, readFails: bool): Result<Option<Identity>, ()> {
    if readFails then Ok(None)
    else match d.sealed
      case Absent => Ok(None)
      case SealedUnder(k, id) => if k == key then Ok(Some(id)) else Err(())
      case Damaged => Err(())
  }

  function OnionKeyForStart(d: Disk, key: StoreKey, restoring: bool, readFails: bool): Result<Option<Identity>, ()> {
    if restoring then ReadOnionKey(d, key, readFails) else Ok(None)
  }

  function DropSupersededKeystore(d: Disk, haveSealedKey: bool, restoring: bool, removes: bool): Disk {
    if (restoring && !haveSealedKey) || !removes then d else d.(keystore := None)
  }

  /** What the service launches on: our key, else the keystore's, else one just made. */
  function LaunchedOn(d: Disk, saved: Option<Identity>, made: Identity): Identity {
    if saved.Some? then saved.value else if d.keystore.Some? then d.keystore.value else made
  }

  // ---------------------------------------------------------------- a start, step by step

  /** `restoring` is what the first look for a state file found; `own` is a file this node loaded or saved. */
  datatype Phase =
    | Idle
    | Reading(key: StoreKey, restoring: bool)
    | Dropping(key: StoreKey, restoring: bool, saved: Option<Identity>)
    | Booting(key: StoreKey, restoring: bool, saved: Option<Identity>)
    | Sealing(key: StoreKey, restoring: bool, id: Identity)
    | Loading(key: StoreKey, restoring: bool, id: Identity)
    | Saving(key: StoreKey, restoring: bool, own: bool, id: Identity)
    | Running(key: StoreKey, restoring: bool, own: bool, id: Identity)

  /**
   * History: `mine` is the identity the install's state file was first saved on, `replaced` whether another node has
   * been saved over it since, `owner` the identity of the state file when this start began, `known` all known by then.
   */
  datatype Machine = Machine(
    disk: Disk,
    phase: Phase,
    mine: Option<Identity>,
    replaced: bool,
    owner: Option<Identity>,
    known: set<Identity>)

  /**
   * `sees` is whether looking for a state file that is there finds it. `Stop` is a crash or a kill at any point; `Wipe`
   * is what a user or a failed wipe leaves behind.
   */
  datatype Step =
    | Begin(startKey: StoreKey, sees: bool)
    | Read(fails: bool)
    | Drop(removes: bool)
    | Boot(launches: bool, made: Identity)
    | Seal(writes: bool)
    | Load(opens: bool, sees: bool)
    | Save(saves: bool)
    | Stop
    | Wipe(sealedToo: bool, keystoreToo: bool)

  function OnDisk(d: Disk): set<Identity> {
    (if d.state.Some? then {d.state.value.owner} else {})
    + (if d.sealed.SealedUnder? then {d.sealed.id} else {})
    + (if d.keystore.Some? then {d.keystore.value} else {})
  }

  function OwnerOf(d: Disk): Option<Identity> {
    if d.state.Some? then Some(d.state.value.owner) else None
  }

  predicate Enabled(m: Machine, step: Step) {
    match step
    case Begin(_, _) => m.phase.Idle?
    case Read(_) => m.phase.Reading?
    case Drop(_) => m.phase.Dropping?
    case Boot(_, made) => m.phase.Booting? && made !in m.known
    case Seal(_) => m.phase.Sealing?
    case Load(_, _) => m.phase.Loading?
    case Save(_) => m.phase.Saving? || m.phase.Running?
    case Stop => true
    case Wipe(_, _) => m.phase.Idle?
  }

  function Do(m: Machine, step: Step): Machine
    requires Enabled(m, step)
  {
    var d, p := m.disk, m.phase;
    match step
    case Begin(key, sees) =>
      m.(phase := Reading(key, d.state.Some? && sees), owner := OwnerOf(d), known := m.known + OnDisk(d))
    case Read(fails) =>
      var saved := OnionKeyForStart(d, p.key, p.restoring, fails);
      m.(phase := if saved.Err? then Idle else Dropping(p.key, p.restoring, saved.value))
    case Drop(removes) =>
      m.(disk := DropSupersededKeystore(d, p.saved.Some?, p.restoring, removes),
         phase := Booting(p.key, p.restoring, p.saved))
    case Boot(launches, made) =>
      var id := LaunchedOn(d, p.saved, made);
      m.(phase := if !launches then Idle
                  else if p.saved.None? then Sealing(p.key, p.restoring, id)
                  else Loading(p.key, p.restoring, id))
    case Seal(writes) =>
      if writes then m.(disk := d.(sealed := SealedUnder(p.key, p.id)), phase := Loading(p.key, p.restoring, p.id))
      else m.(phase := Idle)
    case Load(opens, sees) =>
      var found := d.state.Some? && sees;
      if !found || (opens && d.state.value.key == p.key) then m.(phase := Saving(p.key, p.restoring, found, p.id))
      else m.(phase := Idle)
    case Save(saves) =>
      m.(disk := if saves then d.(state := Some(StateFile(p.id, p.key))) else d,
         mine := if saves && d.state.None? then Some(p.id) else m.mine,
         replaced := m.replaced || (saves && d.state.Some? && !p.own),
         phase := Running(p.key, p.restoring, p.own || saves, p.id))
    case Stop => m.(phase := Idle)
    case Wipe(sealedToo, keystoreToo) =>
      m.(disk := Disk(None, if sealedToo then Absent else d.sealed, if keystoreToo then None else d.keystore),
         mine := None, replaced := false)
  }

  // ---------------------------------------------------------------- what an install keeps

  /**
   * The state file's identity is the sealed one, or is still to be moved out of the keystore. A damaged key file counts
   * too: nothing was put in its place, but no start that reads it comes up.
   */
  predicate Owned(d: Disk) {
    d.state.Some? ==>
      || (d.sealed.SealedUnder? && d.sealed.id == d.state.value.owner)
      || (d.sealed.Absent? && d.keystore == Some(d.state.value.owner))
      || d.sealed.Damaged?
  }

  /** The install still is the one its state file was first saved for, and has its identity. */
  predicate Kept(m: Machine) {
    Owned(m.disk) && OwnerOf(m.disk) == m.mine && !m.replaced
  }

  /** And the key of the state file opens it. */
  predicate Opens(m: Machine) {
    Kept(m) && !m.disk.sealed.Damaged?
    && (m.disk.state.Some? && m.disk.sealed.SealedUnder? ==> m.disk.sealed.key == m.disk.state.value.key)
  }

  /** A fresh start under way is on an identity nobody knew when it began. */
  predicate New(m: Machine) {
    (m.phase.Sealing? || m.phase.Loading? || m.phase.Saving? || m.phase.Running?) && !m.phase.restoring
    ==> m.phase.id !in m.known
  }

  // ---------------------------------------------------------------- the steps that can break it

  /** A key is sealed while there is a state file, and the keystore does not hold that file's identity. */
  predicate Overwrites(m: Machine, step: Step) {
    && step.Seal? && step.writes && m.phase.Sealing?
    && m.disk.state.Some? && m.disk.keystore != OwnerOf(m.disk)
  }

  /** A start that did not see the state file removes the keystore while there is no sealed key. */
  predicate Discards(m: Machine, step: Step) {
    && step.Drop? && step.removes && m.phase.Dropping? && !m.phase.restoring
    && m.disk.state.Some? && m.disk.sealed.Absent?
  }

  /** A node that did not load the state file is saved over it. */
  predicate Replaces(m: Machine, step: Step) {
    step.Save? && step.saves && (m.phase.Saving? || m.phase.Running?) && !m.phase.own && m.disk.state.Some?
  }

  predicate Loses(m: Machine, step: Step) {
    Overwrites(m, step) || Discards(m, step) || Replaces(m, step)
  }

  /** A key is sealed under a store key that is not the state file's. */
  predicate Rekeys(m: Machine, step: Step) {
    && step.Seal? && step.writes && m.phase.Sealing?
    && m.disk.state.Some? && m.disk.state.value.key != m.phase.key
  }

  /** A fresh start is launched with a keystore still there. */
  predicate Adopts(m: Machine, step: Step) {
    step.Boot? && step.launches && m.phase.Booting? && !m.phase.restoring && m.disk.keystore.Some?
  }

  // ---------------------------------------------------------------- the invariant

  /** What is so at each point of a start whatever the file system does. */
  predicate OnCourse(m: Machine) {
    var d := m.disk;
    match m.phase
    case Idle => true
    case Reading(_, restoring) => Begun(m, restoring)
    case Dropping(key, restoring, saved) => Begun(m, restoring) && InHand(d, key, restoring, saved)
    case Booting(key, restoring, saved) => Begun(m, restoring) && InHand(d, key, restoring, saved)
    case Sealing(_, restoring, id) =>
      Begun(m, restoring) && (d.state.Some? ==> (Some(id) == OwnerOf(d) <==> d.keystore == OwnerOf(d)))
    case Loading(key, restoring, id) => Begun(m, restoring) && d.sealed == SealedUnder(key, id)
    case Saving(key, restoring, own, id) =>
      Begun(m, restoring) && d.sealed == SealedUnder(key, id) && (own ==> d.state.Some? && d.state.value.key == key)
    case Running(key, _, own, id) =>
      && d.sealed == SealedUnder(key, id) && (m.owner.Some? ==> d.state.Some?)
      && (own ==> d.state.Some? && d.state.value.key == key)
  }

  predicate Begun(m: Machine, restoring: bool) {
    && (restoring ==> m.disk.state.Some?)
    && m.owner == OwnerOf(m.disk)
    && (m.disk.state.Some? ==> m.disk.state.value.owner in m.known)
    && (m.disk.keystore.Some? ==> m.disk.keystore.value in m.known)
  }

  /** A key in hand is the sealed one. */
  predicate InHand(d: Disk, key: StoreKey, restoring: bool, saved: Option<Identity>) {
    saved.Some? ==> restoring && d.sealed == SealedUnder(key, saved.value)
  }

  lemma StepKeepsCourse(m: Machine, step: Step)
    requires OnCourse(m) && Enabled(m, step)
    ensures OnCourse(Do(m, step))
  {
  }

  /** An install keeps its identity and its node through a step exactly when the step is none of the three. */
  lemma StepKeepsIff(m: Machine, step: Step)
    requires OnCourse(m) && Enabled(m, step) && Kept(m)
    ensures Kept(Do(m, step)) <==> !Loses(m, step)
  {
  }

  /** And stays open to its key exactly when the step does not seal under another one either. */
  lemma StepOpensIff(m: Machine, step: Step)
    requires OnCourse(m) && Enabled(m, step) && Opens(m)
    ensures Opens(Do(m, step)) <==> !Loses(m, step) && !Rekeys(m, step)
  {
  }

  /** A fresh start stays on a new identity exactly when the step is not a launch on a leftover keystore. */
  lemma StepNewIff(m: Machine, step: Step)
    requires OnCourse(m) && Enabled(m, step) && New(m)
    ensures New(Do(m, step)) <==> !Adopts(m, step)
  {
  }

  // ---------------------------------------------------------------- whole runs

  /** Any starts, stopped anywhere, with any outcome of every step, and wipes between them. */
  ghost predicate IsRun(machines: seq<Machine>, steps: seq<Step>) {
    && |machines| == |steps| + 1
    && (forall i :: 0 <= i < |steps| ==> Enabled(machines[i], steps[i]) && machines[i + 1] == Do(machines[i], steps[i]))
  }

  /** An install as it may be found: its state file's identity is where it should be, and nothing is running. */
  predicate Installed(m: Machine) {
    m.phase.Idle? && Kept(m)
  }

  lemma {:induction false} CourseEveryRun(machines: seq<Machine>, steps: seq<Step>)
    requires IsRun(machines, steps) && Installed(machines[0])
    ensures forall i :: 0 <= i <= |steps| ==> OnCourse(machines[i])
    decreases |steps|
  {
    if steps != [] {
      var n := |steps| - 1;
      CourseEveryRun(machines[..n + 1], steps[..n]);
      assert forall i :: 0 <= i <= n ==> machines[..n + 1][i] == machines[i];
      StepKeepsCourse(machines[n], steps[n]);
    }
  }

  ghost predicate AlwaysKept(machines: seq<Machine>) {
    forall i :: 0 <= i < |machines| ==> Kept(machines[i])
  }

  ghost predicate AlwaysOpens(machines: seq<Machine>) {
    forall i :: 0 <= i < |machines| ==> Opens(machines[i])
  }

  ghost predicate AlwaysNew(machines: seq<Machine>) {
    forall i :: 0 <= i < |machines| ==> New(machines[i])
  }

  ghost predicate NeverLoses(machines: seq<Machine>, steps: seq<Step>) {
    forall i :: 0 <= i < |steps| && i < |machines| ==> !Loses(machines[i], steps[i])
  }

  ghost predicate NeverRekeys(machines: seq<Machine>, steps: seq<Step>) {
    forall i :: 0 <= i < |steps| && i < |machines| ==>
      !Loses(machines[i], steps[i]) && !Rekeys(machines[i], steps[i])
  }

  ghost predicate NeverAdopts(machines: seq<Machine>, steps: seq<Step>) {
    forall i :: 0 <= i < |steps| && i < |machines| ==> !Adopts(machines[i], steps[i])
  }

  /** At every point of a run the install has its identity and its node, exactly when no step of the run loses it. */
  lemma {:induction false} KeptIffNeverLost(machines: seq<Machine>, steps: seq<Step>)
    requires IsRun(machines, steps) && Installed(machines[0])
    ensures AlwaysKept(machines) <==> NeverLoses(machines, steps)
    decreases |steps|
  {
    if steps != [] {
      var n := |steps| - 1;
      var (front, before) := (machines[..n + 1], steps[..n]);
      KeptIffNeverLost(front, before);
      CourseEveryRun(machines, steps);
      assert machines == front + [machines[n + 1]] && steps == before + [steps[n]];
      assert AlwaysKept(machines) <==> AlwaysKept(front) && Kept(machines[n + 1]);
      assert NeverLoses(machines, steps) <==> NeverLoses(front, before) && !Loses(machines[n], steps[n]);
      if Kept(machines[n]) {
        StepKeepsIff(machines[n], steps[n]);
      }
      assert front[n] == machines[n];
    }
  }

  /** Its own key opens it at every point, exactly when no step loses it or seals under another key. */
  lemma {:induction false} OpensIffNeverRekeyed(machines: seq<Machine>, steps: seq<Step>)
    requires IsRun(machines, steps) && machines[0].phase.Idle? && Opens(machines[0])
    ensures AlwaysOpens(machines) <==> NeverRekeys(machines, steps)
    decreases |steps|
  {
    if steps != [] {
      var n := |steps| - 1;
      var (front, before) := (machines[..n + 1], steps[..n]);
      OpensIffNeverRekeyed(front, before);
      CourseEveryRun(machines, steps);
      assert machines == front + [machines[n + 1]] && steps == before + [steps[n]];
      assert AlwaysOpens(machines) <==> AlwaysOpens(front) && Opens(machines[n + 1]);
      var broken := Loses(machines[n], steps[n]) || Rekeys(machines[n], steps[n]);
      assert NeverRekeys(machines, steps) <==> NeverRekeys(front, before) && !broken;
      if Opens(machines[n]) {
        StepOpensIff(machines[n], steps[n]);
      }
      assert front[n] == machines[n];
    }
  }

  /** Every fresh start is on a new identity, exactly when none is launched with a keystore left. */
  lemma {:induction false} NewIffNeverAdopted(machines: seq<Machine>, steps: seq<Step>)
    requires IsRun(machines, steps) && Installed(machines[0])
    ensures AlwaysNew(machines) <==> NeverAdopts(machines, steps)
    decreases |steps|
  {
    if steps != [] {
      var n := |steps| - 1;
      var (front, before) := (machines[..n + 1], steps[..n]);
      NewIffNeverAdopted(front, before);
      CourseEveryRun(machines, steps);
      assert machines == front + [machines[n + 1]] && steps == before + [steps[n]];
      assert AlwaysNew(machines) <==> AlwaysNew(front) && New(machines[n + 1]);
      assert NeverAdopts(machines, steps) <==> NeverAdopts(front, before) && !Adopts(machines[n], steps[n]);
      if New(machines[n]) {
        StepNewIff(machines[n], steps[n]);
      }
      assert front[n] == machines[n];
    }
  }

  /** While the install keeps its identity, a start that began with a state file there began on it. */
  lemma {:induction false} BeganOnMine(machines: seq<Machine>, steps: seq<Step>)
    requires IsRun(machines, steps) && Installed(machines[0])
    requires AlwaysKept(machines)
    ensures var m := machines[|steps|];
      !m.phase.Idle? && m.owner.Some? ==> m.owner == m.mine
    decreases |steps|
  {
    if steps != [] {
      var n := |steps| - 1;
      assert forall i :: 0 <= i <= n ==> machines[..n + 1][i] == machines[i];
      BeganOnMine(machines[..n + 1], steps[..n]);
      CourseEveryRun(machines, steps);
    }
  }

  /**
   * In every run: a start that comes up has sealed its identity under its key; if no step of the run loses the install,
   * a start with a state file there is on the identity the install always had; if none is launched with a keystore
   * left, a start that found no state file is on a new one.
   */
  lemma EveryStartIsRight(machines: seq<Machine>, steps: seq<Step>)
    requires IsRun(machines, steps) && Installed(machines[0]) && machines[|steps|].phase.Running?
    ensures var m := machines[|steps|];
      && m.disk.sealed == SealedUnder(m.phase.key, m.phase.id)
      && (m.owner.Some? && NeverLoses(machines, steps) ==> m.owner == m.mine == Some(m.phase.id))
      && (!m.phase.restoring && NeverAdopts(machines, steps) ==> m.phase.id !in m.known)
  {
    CourseEveryRun(machines, steps);
    NewIffNeverAdopted(machines, steps);
    KeptIffNeverLost(machines, steps);
    if NeverLoses(machines, steps) {
      BeganOnMine(machines, steps);
    }
  }

  // ---------------------------------------------------------------- a file system that does as it is asked

  /** A state file and a key file that are there are seen and read, a keystore a fresh start finds is removed. */
  predicate Truthful(m: Machine, step: Step) {
    && ((step.Begin? || step.Load?) && m.disk.state.Some? ==> step.sees)
    && (step.Read? && m.phase.Reading? && m.phase.restoring && !m.disk.sealed.Absent? ==> !step.fails)
    && (step.Drop? && m.phase.Dropping? && !m.phase.restoring && m.disk.keystore.Some? ==> step.removes)
  }

  /** A start is restoring when there is a state file; without a key in hand it then found no key file. */
  predicate NothingMissed(m: Machine) {
    var d := m.disk;
    match m.phase
    case Idle => true
    case Reading(_, restoring) => restoring == d.state.Some?
    case Dropping(_, restoring, saved) => restoring == d.state.Some? && (restoring && saved.None? ==> d.sealed.Absent?)
    case Booting(_, restoring, saved) =>
      && restoring == d.state.Some? && (restoring && saved.None? ==> d.sealed.Absent?)
      && (!restoring ==> d.keystore.None?)
    case Sealing(_, restoring, _) => restoring == d.state.Some? && (restoring ==> d.sealed.Absent?)
    case Loading(_, restoring, _) => restoring == d.state.Some?
    case Saving(_, _, own, _) => own || d.state.None?
    case Running(_, _, own, _) => own || d.state.None?
  }

  lemma StepMissesNothing(m: Machine, step: Step)
    requires NothingMissed(m) && OnCourse(m) && Enabled(m, step) && Truthful(m, step)
    ensures NothingMissed(Do(m, step))
    ensures (Kept(m) ==> !Loses(m, step)) && !Adopts(m, step)
  {
  }

  /** Then no step of any run loses the install or adopts a keystore. */
  lemma {:induction false} TruthfulRunIsSafe(machines: seq<Machine>, steps: seq<Step>)
    requires IsRun(machines, steps) && Installed(machines[0])
    requires forall i :: 0 <= i < |steps| ==> Truthful(machines[i], steps[i])
    ensures NothingMissed(machines[|steps|])
    ensures NeverLoses(machines, steps) && NeverAdopts(machines, steps)
    decreases |steps|
  {
    if steps != [] {
      var n := |steps| - 1;
      var (front, before) := (machines[..n + 1], steps[..n]);
      assert forall i :: 0 <= i <= n ==> front[i] == machines[i];
      assert forall i :: 0 <= i < n ==> before[i] == steps[i];
      TruthfulRunIsSafe(front, before);
      CourseEveryRun(machines, steps);
      KeptIffNeverLost(front, before);
      assert Kept(front[n]);
      StepMissesNothing(machines[n], steps[n]);
    }
  }

  // ---------------------------------------------------------------- one whole start, and where it goes wrong

  /** How the world treats one start. The state file is looked for twice. */
  datatype World = World(sees: bool, readFails: bool, removes: bool, launches: bool, made: Identity, seals: bool,
                         seesAgain: bool, loads: bool, saves: bool)

  /** All goes well. */
  function Well(made: Identity): World {
    World(true, false, true, true, made, true, true, true, true)
  }

  predicate Fresh(m: Machine, made: Identity) {
    made !in m.known + OnDisk(m.disk)
  }

  /** Up to the launch of the service. */
  function Launch(m: Machine, key: StoreKey, w: World): Machine
    requires m.phase.Idle? && Fresh(m, w.made)
  {
    var read := Do(Do(m, Begin(key, w.sees)), Read(w.readFails));
    if read.phase.Idle? then read else Do(Do(read, Drop(w.removes)), Boot(w.launches, w.made))
  }

  /** From there to a running node. */
  function Settle(m: Machine, w: World): Machine
    requires m.phase.Sealing? || m.phase.Loading?
  {
    var sealed := if m.phase.Sealing? then Do(m, Seal(w.seals)) else m;
    if sealed.phase.Idle? then sealed
    else
      var loaded := Do(sealed, Load(w.loads, w.seesAgain));
      if loaded.phase.Idle? then loaded else Do(loaded, Save(w.saves))
  }

  function StartFrom(m: Machine, key: StoreKey, w: World): Machine
    requires m.phase.Idle? && Fresh(m, w.made)
  {
    var launched := Launch(m, key, w);
    if launched.phase.Idle? then launched else Settle(launched, w)
  }

  predicate Restores(m: Machine, w: World) {
    m.disk.state.Some? && w.sees
  }

  /** The start has the sealed key in hand. */
  predicate HasKey(m: Machine, key: StoreKey, w: World) {
    Restores(m, w) && !w.readFails && m.disk.sealed.SealedUnder? && m.disk.sealed.key == key
  }

  /** The service comes up. */
  predicate Launches(m: Machine, key: StoreKey, w: World) {
    (!Restores(m, w) || w.readFails || m.disk.sealed.Absent? || HasKey(m, key, w)) && w.launches
  }

  /** What it launched on is sealed. */
  predicate SealsOver(m: Machine, key: StoreKey, w: World) {
    Launches(m, key, w) && !HasKey(m, key, w) && w.seals
  }

  /** The start without a key in hand finds this keystore. */
  function KeystoreLeft(m: Machine, w: World): Option<Identity> {
    if Restores(m, w) || !w.removes then m.disk.keystore else None
  }

  /**
   * The install's address is lost: sealed over while the keystore does not hold it too, or removed with the keystore
   * that alone held it, by a start that did not see the state file.
   */
  predicate LosesKey(m: Machine, key: StoreKey, w: World) {
    || (SealsOver(m, key, w) && KeystoreLeft(m, w) != OwnerOf(m.disk))
    || (!w.sees && w.removes && m.disk.sealed.Absent?)
  }

  /** A start that gets to the second look for the state file does not see it, and saves a fresh node over it. */
  predicate LosesNode(m: Machine, key: StoreKey, w: World) {
    Launches(m, key, w) && (HasKey(m, key, w) || w.seals) && !w.seesAgain && w.saves
  }

  /** The launch, seen from outside. */
  lemma LaunchTells(m: Machine, key: StoreKey, w: World)
    requires m.phase.Idle? && m.disk.state.Some? && Fresh(m, w.made)
    ensures var up := Launch(m, key, w);
      && (up.phase == if !Launches(m, key, w) then Idle
                      else if HasKey(m, key, w) then Loading(key, true, m.disk.sealed.id)
                      else Sealing(key, w.sees, LaunchedOn(m.disk.(keystore := KeystoreLeft(m, w)), None, w.made)))
      && up.disk.state == m.disk.state && up.disk.sealed == m.disk.sealed
      && up.mine == m.mine && up.replaced == m.replaced
      && (!HasKey(m, key, w) ==>
            up.disk.keystore == m.disk.keystore || (!w.sees && w.removes && up.disk.keystore.None?))
      && (!w.sees && w.removes ==> up.disk.keystore.None?)
  {
  }

  /** And the rest. */
  lemma SettleTells(up: Machine, w: World)
    requires (up.phase.Sealing? || up.phase.Loading?) && up.disk.state.Some?
    ensures var after, p := Settle(up, w), up.phase;
      var ready := p.Loading? || w.seals;
      var comesUp := ready && (!w.seesAgain || (w.loads && up.disk.state.value.key == p.key));
      && after.phase == (if comesUp then Running(p.key, p.restoring, w.seesAgain || w.saves, p.id) else Idle)
      && after.disk.sealed == (if p.Sealing? && w.seals then SealedUnder(p.key, p.id) else up.disk.sealed)
      && after.disk.state == (if comesUp && w.saves then Some(StateFile(p.id, p.key)) else up.disk.state)
      && after.disk.keystore == up.disk.keystore && after.mine == up.mine
      && after.replaced == (up.replaced || (ready && !w.seesAgain && w.saves))
  {
  }

  /** The identity a start of an install is launched on. */
  function StartsOn(m: Machine, key: StoreKey, w: World): Identity {
    if HasKey(m, key, w) then m.disk.sealed.id
    else if KeystoreLeft(m, w).Some? then KeystoreLeft(m, w).value
    else w.made
  }

  /** It comes up: launched, its identity in the key file, and the state file opened if it is seen. */
  predicate ComesUp(m: Machine, key: StoreKey, w: World) {
    && Launches(m, key, w) && (HasKey(m, key, w) || w.seals)
    && (m.disk.state.Some? && w.seesAgain ==> w.loads && m.disk.state.value.key == key)
  }

  /** When a start of an install comes up, on what, and what it leaves on disk. */
  lemma StartTells(m: Machine, key: StoreKey, w: World)
    requires m.phase.Idle? && m.disk.state.Some? && Fresh(m, w.made)
    ensures var after, id := StartFrom(m, key, w), StartsOn(m, key, w);
      && after.phase == (if ComesUp(m, key, w) then Running(key, w.sees, w.seesAgain || w.saves, id) else Idle)
      && after.disk.sealed == (if SealsOver(m, key, w) then SealedUnder(key, id) else m.disk.sealed)
      && after.disk.state == if ComesUp(m, key, w) && w.saves then Some(StateFile(id, key)) else m.disk.state
  {
    LaunchTells(m, key, w);
    if Launches(m, key, w) {
      SettleTells(Launch(m, key, w), w);
    }
  }

  /** The same of a start with no state file there. */
  lemma FreshStartTells(m: Machine, key: StoreKey, w: World)
    requires m.phase.Idle? && m.disk.state.None? && Fresh(m, w.made)
    ensures var after := StartFrom(m, key, w);
      var id := if m.disk.keystore.Some? && !w.removes then m.disk.keystore.value else w.made;
      && after.phase == (if w.launches && w.seals then Running(key, false, w.saves, id) else Idle)
      && after.disk.sealed == (if w.launches && w.seals then SealedUnder(key, id) else m.disk.sealed)
      && after.disk.state == (if w.launches && w.seals && w.saves then Some(StateFile(id, key)) else None)
      && after.disk.keystore == if w.removes then None else m.disk.keystore
  {
  }

  /**
   * The documentation says an unreadable key file is never taken for an absent one; the code takes a failed read for
   * one, and a state file it fails to look up for none. So a start of an install, however it ends, leaves the install
   * as it was exactly when it does neither; and if it comes up, it is on its own identity exactly when its key is kept.
   */
  lemma StartKeepsIff(m: Machine, key: StoreKey, w: World)
    requires Installed(m) && m.disk.state.Some? && Fresh(m, w.made)
    ensures var after := StartFrom(m, key, w);
      && (after.phase.Idle? || after.phase.Running?)
      && (Kept(after) <==> !LosesKey(m, key, w) && !LosesNode(m, key, w))
      && (after.phase.Running? ==> (Some(after.phase.id) == m.mine <==> !LosesKey(m, key, w)))
  {
    LaunchTells(m, key, w);
    if Launches(m, key, w) {
      SettleTells(Launch(m, key, w), w);
    }
  }

  /** A start that sees the state file both times: only a failed read of a key file that is there loses anything. */
  lemma RestoredIffRead(m: Machine, key: StoreKey, w: World)
    requires Installed(m) && m.disk.state.Some? && Fresh(m, w.made) && w.sees && w.seesAgain
    ensures var after := StartFrom(m, key, w);
      var lost := w.readFails && !m.disk.sealed.Absent? && m.disk.keystore != m.mine && w.launches && w.seals;
      (Kept(after) <==> !lost) && (after.phase.Running? ==> (Some(after.phase.id) == m.mine <==> !lost))
  {
    StartKeepsIff(m, key, w);
  }

  /** A fresh install: its state file, its key sealed under the same store key, no keystore. */
  function Settled(key: StoreKey, mine: Identity): Machine {
    Machine(Disk(Some(StateFile(mine, key)), SealedUnder(key, mine), None), Idle, Some(mine), false, None, {})
  }

  /** One failed read of a sealed key: the install comes up on an address nobody knows, and seals it over its own. */
  lemma FailedReadLosesAddress(key: StoreKey, mine: Identity, made: Identity)
    requires made != mine
    ensures Installed(Settled(key, mine))
    ensures var after := StartFrom(Settled(key, mine), key, Well(made).(readFails := true));
      && after.phase == Running(key, true, true, made)
      && after.disk.sealed == SealedUnder(key, made)
  {
  }

  /**
   * It need not come up: the start that could not read the key fails after sealing, or is killed there, and the next
   * one, which reads its key, runs on the stranger.
   */
  lemma FailedReadLosesAddressLater(key: StoreKey, mine: Identity, made: Identity, other: Identity)
    requires made != mine && other != mine && other != made
    ensures var failed := StartFrom(Settled(key, mine), key, Well(made).(readFails := true, loads := false));
      && failed.phase.Idle? && !Kept(failed) && Fresh(failed, other)
      && StartFrom(failed, key, Well(other)).phase == Running(key, true, true, made)
    ensures var sealed := Do(Launch(Settled(key, mine), key, Well(made).(readFails := true)), Seal(true));
      var killed := Do(sealed, Stop);
      && killed.phase.Idle? && !Kept(killed) && Fresh(killed, other)
      && StartFrom(killed, key, Well(other)).phase == Running(key, true, true, made)
  {
  }

  /**
   * A state file that is there and not seen: the first time, a new identity is sealed over the install's; the second
   * time, a fresh node on the install's own address is saved over its state.
   */
  lemma UnseenInstallIsReplaced(key: StoreKey, mine: Identity, made: Identity)
    requires made != mine
    ensures var after := StartFrom(Settled(key, mine), key, Well(made).(sees := false));
      after.phase == Running(key, false, true, made) && after.disk.sealed == SealedUnder(key, made) && !Kept(after)
    ensures var after := StartFrom(Settled(key, mine), key, Well(made).(seesAgain := false));
      after.phase == Running(key, true, true, mine) && after.replaced && !Kept(after)
  {
  }

  /** A fresh start that comes up is on a new identity exactly when no keystore was left, or it was removed. */
  lemma FreshIffRemoved(m: Machine, key: StoreKey, w: World)
    requires m.phase.Idle? && m.disk.state.None? && Fresh(m, w.made)
    requires StartFrom(m, key, w).phase.Running?
    ensures StartFrom(m, key, w).phase.id !in m.known + OnDisk(m.disk) <==> m.disk.keystore.None? || w.removes
  {
  }

  /** A leftover keystore that cannot be removed: the new identity is the old one. */
  lemma LeftoverIsAdopted(key: StoreKey, old_: Identity, made: Identity)
    requires made != old_
    ensures var m := Machine(Disk(None, Absent, Some(old_)), Idle, None, false, None, {});
      && Installed(m)
      && StartFrom(m, key, Well(made).(removes := false)).phase == Running(key, false, true, old_)
  {
  }

  /**
   * A start with a store key that is not the state file's comes up only by not seeing the file. It leaves the key file
   * as it was exactly when it does not get as far as sealing, or what it seals is there; if it does, what was launched
   * is sealed under the wrong key.
   */
  lemma WrongKeyStart(m: Machine, key: StoreKey, w: World)
    requires Installed(m) && m.disk.state.Some? && m.disk.state.value.key != key && Fresh(m, w.made)
    ensures var after := StartFrom(m, key, w);
      var launched := SealedUnder(key, if KeystoreLeft(m, w).Some? then KeystoreLeft(m, w).value else w.made);
      && (after.phase.Running? <==> Launches(m, key, w) && (HasKey(m, key, w) || w.seals) && !w.seesAgain)
      && (after.phase.Idle? ==> after.disk.state == m.disk.state)
      && after.disk.sealed == (if SealsOver(m, key, w) then launched else m.disk.sealed)
      && (Kept(after) <==> !LosesKey(m, key, w) && !LosesNode(m, key, w))
      && (Opens(m) ==> (Opens(after) <==> !SealsOver(m, key, w) && !LosesKey(m, key, w)))
  {
    LaunchTells(m, key, w);
    if Launches(m, key, w) {
      SettleTells(Launch(m, key, w), w);
    }
  }

  /**
   * A key sealed under another store key: no start with this one comes up while the state file is seen and the key file
   * read, and nothing changes.
   */
  lemma LockedOut(m: Machine, key: StoreKey, w: World)
    requires m.phase.Idle? && m.disk.state.Some? && Fresh(m, w.made)
    requires m.disk.sealed.SealedUnder? && m.disk.sealed.key != key && w.sees && !w.readFails
    ensures StartFrom(m, key, w).phase.Idle? && StartFrom(m, key, w).disk == m.disk
  {
  }

  predicate ReadsWith(step: Step, key: StoreKey) {
    (step.Begin? ==> step.startKey == key && step.sees) && (step.Read? ==> !step.fails) && !step.Wipe?
  }

  /** Nor does any run of such starts: only a wipe, another key or a failed look gets past it. */
  lemma {:induction false} LockedOutForGood(machines: seq<Machine>, steps: seq<Step>, key: StoreKey)
    requires IsRun(machines, steps) && machines[0].phase.Idle? && machines[0].disk.state.Some?
    requires machines[0].disk.sealed.SealedUnder? && machines[0].disk.sealed.key != key
    requires forall i :: 0 <= i < |steps| ==> ReadsWith(steps[i], key)
    ensures var m := machines[|steps|];
      m.disk == machines[0].disk && (m.phase.Idle? || m.phase == Reading(key, true))
    decreases |steps|
  {
    if steps != [] {
      var n := |steps| - 1;
      assert steps[..n] + [steps[n]] == steps;
      LockedOutForGood(machines[..n + 1], steps[..n], key);
      assert ReadsWith(steps[n], key);
    }
  }

  /** One start with a wrong key, before the identity was moved out of the keystore, shuts the right key out. */
  lemma WrongKeyLocksOut(right: StoreKey, wrong: StoreKey, mine: Identity, made: Identity, w: World)
    requires right != wrong && made != mine && w.sees && !w.readFails
    ensures var m := Machine(Disk(Some(StateFile(mine, right)), Absent, Some(mine)), Idle, Some(mine), false, None, {});
      var after := StartFrom(m, wrong, Well(made));
      && Installed(m) && Opens(m) && after.phase.Idle?
      && after.disk == Disk(Some(StateFile(mine, right)), SealedUnder(wrong, mine), Some(mine))
      && (Fresh(after, w.made) ==>
            StartFrom(after, right, w).phase.Idle? && StartFrom(after, right, w).disk == after.disk)
  {
    var m := Machine(Disk(Some(StateFile(mine, right)), Absent, Some(mine)), Idle, Some(mine), false, None, {});
    var after := StartFrom(m, wrong, Well(made));
    if Fresh(after, w.made) {
      LockedOut(after, right, w);
    }
  }

  // ---------------------------------------------------------------- the start-up code

  class Install {
    var state: Option<StateFile>
    var sealed: KeyFile
    var keystore: Option<Identity>

    function View(): Disk
      reads this
    {
      Disk(state, sealed, keystore)
    }

    constructor (d: Disk)
      ensures View() == d
    {
      state, sealed, keystore := d.state, d.sealed, d.keystore;
    }

    method ReadSealedKey(key: StoreKey, readFails: bool) returns (r: Result<Option<Identity>, ()>)
      ensures r == ReadOnionKey(View(), key, readFails)
    {
      if readFails || sealed.Absent? {
        return Ok(None);
      }
      if sealed.Damaged? || sealed.key != key {
        return Err(());
      }
      return Ok(Some(sealed.id));
    }

    method DropKeystore(haveSealedKey: bool, restoring: bool, removes: bool)
      modifies this`keystore
      ensures View() == DropSupersededKeystore(old(View()), haveSealedKey, restoring, removes)
    {
      if restoring && !haveSealedKey {
        return;
      }
      if keystore.Some? && removes {
        keystore := None;
      }
    }

    method Bootstrap(saved: Option<Identity>, w: World) returns (r: Result<Identity, ()>)
      ensures r == if w.launches then Ok(LaunchedOn(View(), saved, w.made)) else Err(())
    {
      if !w.launches {
        return Err(());
      }
      var onDisk := saved.None? && keystore.Some?;
      return Ok(if saved.Some? then saved.value else if onDisk then keystore.value else w.made);
    }

    method SealOnionIdentity(key: StoreKey, id: Identity, writes: bool) returns (ok: bool)
      modifies this`sealed
      ensures ok == writes && View() == if writes then old(View()).(sealed := SealedUnder(key, id)) else old(View())
    {
      if writes {
        sealed := SealedUnder(key, id);
      }
      return writes;
    }

    /** Read, clear and launch, in that order. */
    method ComeUp(key: StoreKey, restoring: bool, w: World, ghost m: Machine)
      returns (up: Option<Identity>, sealedAlready: bool)
      requires m.phase.Idle? && m.disk == View() && Fresh(m, w.made) && restoring == (state.Some? && w.sees)
      modifies this
      ensures View() == Launch(m, key, w).disk
      ensures match Launch(m, key, w).phase
              case Sealing(_, _, id) => up == Some(id) && !sealedAlready
              case Loading(_, _, id) => up == Some(id) && sealedAlready
              case _ => up.None?
    {
      var saved: Option<Identity> := None;
      if restoring {
        var read := ReadSealedKey(key, w.readFails);
        if read.Err? {
          return None, false;
        }
        saved := read.value;
      }
      DropKeystore(saved.Some?, restoring, w.removes);
      var launched := Bootstrap(saved, w);
      if launched.Err? {
        return None, false;
      }
      return Some(launched.value), saved.Some?;
    }

    /** The start-up sequence, in order. `None` is a start that failed. */
    method NewTor(key: StoreKey, w: World, ghost m: Machine) returns (up: Option<Identity>)
      requires m.phase.Idle? && m.disk == View() && Fresh(m, w.made)
      modifies this
      ensures View() == StartFrom(m, key, w).disk
      ensures up == if StartFrom(m, key, w).phase.Running? then Some(StartFrom(m, key, w).phase.id) else None
    {
      var restoring := state.Some? && w.sees;
      var launched, sealedAlready := ComeUp(key, restoring, w, m);
      if launched.None? {
        return None;
      }
      if !sealedAlready {
        var ok := SealOnionIdentity(key, launched.value, w.seals);
        if !ok {
          return None;
        }
      }
      if state.Some? && w.seesAgain && (!w.loads || state.value.key != key) {
        return None;
      }
      if w.saves {
        state := Some(StateFile(launched.value, key));
      }
      return launched;
    }
  }
}
