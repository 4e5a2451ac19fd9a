// The enable/disable command: persisted under a lock, then published, with the
// refresh loop writing to the same file and crashes at any point.
module ControlProtocol {
  import opened Common

  /** What the state file holds. */
  datatype Setting = Setting(enabled: bool, notBefore: Option<int>)

  const DEFAULT := Setting(true, None)

  /** A file is whole, or cut short so that it does not parse. */
  datatype Content = Whole(setting: Setting) | Torn

  /** The state file and the temporary file beside it. */
  datatype Disk = Disk(file: Option<Content>, tmp: Option<Content>)

  /** Opening the store: a missing or unreadable file gives the defaults. */
  function Load(disk: Disk): Setting {
    match disk.file
    case Some(Whole(setting)) => setting
    case _ => DEFAULT
  }

  /** The two writers of the file. */
  datatype Writer = Commander | Refresher

  /** How far the holder of the store's lock has come with its atomic write. */
  datatype Save =
    | Idle
    | Starting(writer: Writer, next: Setting)
    | Writing(writer: Writer, next: Setting)
    | Written(writer: Writer, next: Setting)
    | Renamed(writer: Writer, next: Setting)

  /** The holder of the commands lock: none, one being persisted, or one persisted. */
  datatype Order = NoOrder | Asked(enabled: bool) | Persisted(enabled: bool)

  /** A running service. `wakes` counts the changes its subscribers were told of. */
  datatype Process = Process(mem: Setting, channel: bool, wakes: nat, order: Order, save: Save)

  datatype State = State(disk: Disk, process: Option<Process>)

  datatype Action =
    | Begin(enabled: bool)
    | UpdateEnabled
    | UpdateNotBefore(notBefore: Option<int>)
    | CreateTemp(ok: bool)
    | WriteTemp(ok: bool)
    | RenameTemp(ok: bool)
    | Apply
    | Publish
    | Crash
    | Start

  /** Read-modify-write: a change of nothing does not touch the disk. */
  function Enter(p: Process, writer: Writer, next: Setting): Process {
    if next != p.mem then p.(save := Starting(writer, next))
    else if writer == Commander then p.(order := Persisted(next.enabled))
    else p
  }

  /** A failed write: the locks are released and the error goes back. */
  function Abandon(p: Process, writer: Writer): Process {
    p.(save := Idle, order := if writer == Commander then NoOrder else p.order)
  }

  function Running(s: State, p: Process, a: Action): State {
    match (a, p.save)
    case (Begin(v), _) =>
      if p.order.NoOrder? then s.(process := Some(p.(order := Asked(v)))) else s
    case (UpdateEnabled, Idle) =>
      if p.order.Asked? then s.(process := Some(Enter(p, Commander, p.mem.(enabled := p.order.enabled)))) else s
    case (UpdateNotBefore(t), Idle) =>
      s.(process := Some(Enter(p, Refresher, p.mem.(notBefore := t))))
    case (CreateTemp(ok), Starting(writer, next)) =>
      if ok then State(s.disk.(tmp := Some(Torn)), Some(p.(save := Writing(writer, next))))
      else s.(process := Some(Abandon(p, writer)))
    case (WriteTemp(ok), Writing(writer, next)) =>
      if ok then State(s.disk.(tmp := Some(Whole(next))), Some(p.(save := Written(writer, next))))
      else s.(process := Some(Abandon(p, writer)))
    case (RenameTemp(ok), Written(writer, next)) =>
      if ok then State(Disk(s.disk.tmp, None), Some(p.(save := Renamed(writer, next))))
      else s.(process := Some(Abandon(p, writer)))
    case (Apply, Renamed(writer, next)) =>
      s.(process := Some(p.(mem := next, save := Idle,
                            order := if writer == Commander then Persisted(next.enabled) else p.order)))
    case (Publish, _) =>
      if p.order.Persisted? then
        s.(process := Some(p.(channel := p.order.enabled, order := NoOrder,
                              wakes := p.wakes + if p.channel != p.order.enabled then 1 else 0)))
      else s
    case _ => s
  }

  /** One atomic step; an action that is not possible in a state changes nothing. */
  function Next(s: State, a: Action): State {
    match a
    case Crash => s.(process := None)
    case Start =>
      if s.process.Some? then s
      else s.(process := Some(Process(Load(s.disk), Load(s.disk).enabled, 0, NoOrder, Idle)))
    case _ => if s.process.None? then s else Running(s, s.process.value, a)
  }

  function Run(s: State, actions: seq<Action>): State {
    if actions == [] then s else Next(Run(s, actions[..|actions| - 1]), actions[|actions| - 1])
  }

  // ------------------------------------------------------------- the invariant

  ghost predicate SaveIsSound(disk: Disk, p: Process) {
    && (p.save.Renamed? ==> disk.file == Some(Whole(p.save.next)))
    && (!p.save.Renamed? ==> Load(disk) == p.mem)
    && (p.save.Written? ==> disk.tmp == Some(Whole(p.save.next)))
    && (!p.save.Idle? && p.save.writer == Commander ==>
          p.order.Asked? && p.save.next == p.mem.(enabled := p.order.enabled))
    && (!p.save.Idle? && p.save.writer == Refresher ==> p.save.next.enabled == p.mem.enabled)
  }

  ghost predicate ChannelIsSound(p: Process) {
    if p.order.Persisted? then p.mem.enabled == p.order.enabled else p.channel == p.mem.enabled
  }

  ghost predicate Sound(s: State) {
    s.process.Some? ==> SaveIsSound(s.disk, s.process.value) && ChannelIsSound(s.process.value)
  }

  lemma NextKeepsSound(s: State, a: Action)
    requires Sound(s)
    ensures Sound(Next(s, a))
  {
  }

  lemma {:induction false} RunsAreSound(disk: Disk, actions: seq<Action>)
    ensures Sound(Run(State(disk, None), actions))
  {
    if actions != [] {
      hide Sound;
      RunsAreSound(disk, actions[..|actions| - 1]);
      NextKeepsSound(Run(State(disk, None), actions[..|actions| - 1]), actions[|actions| - 1]);
    }
  }

  // -------------------------------------------------------------- main results

  /** The next publish would put out this setting. */
  predicate Publishing(s: State) {
    s.process.Some? && s.process.value.order.Persisted?
  }

  /** Over every interleaving, a setting is on disk when it is published. */
  lemma PublishedIsOnDisk(disk: Disk, actions: seq<Action>)
    ensures var s := Run(State(disk, None), actions);
      Publishing(s) ==>
        && Next(s, Publish).process.value.channel == Load(s.disk).enabled
        && Load(Next(s, Publish).disk) == Load(s.disk)
  {
    RunsAreSound(disk, actions);
  }

  /** Disk and channel differ only while a command holds the lock. */
  lemma DifferOnlyUnderLock(disk: Disk, actions: seq<Action>)
    ensures var s := Run(State(disk, None), actions);
      s.process.Some? && s.process.value.order.NoOrder? ==> s.process.value.channel == Load(s.disk).enabled
  {
    RunsAreSound(disk, actions);
  }

  /** The file is the one found at the start, or a whole one. */
  ghost predicate OldOrNew(before: Disk, s: State) {
    s.disk.file == before.file || (s.disk.file.Some? && s.disk.file.value.Whole?)
  }

  /** Whatever happens and wherever it crashes, the file is the one found or a whole one; never torn by us. */
  lemma {:induction false} FileIsNeverTorn(disk: Disk, actions: seq<Action>)
    ensures OldOrNew(disk, Run(State(disk, None), actions))
  {
    if actions != [] {
      var n := |actions| - 1;
      FileIsNeverTorn(disk, actions[..n]);
      RunsAreSound(disk, actions[..n]);
    }
  }

  /**
   * One step leaves the file as it was or replaces it whole by the setting being
   * saved, and only the rename does the latter.
   */
  lemma StepLeavesOldOrNew(disk: Disk, actions: seq<Action>, a: Action)
    ensures var s := Run(State(disk, None), actions);
      var r := Next(s, a);
      || r.disk.file == s.disk.file
      || (a == RenameTemp(true) && s.process.Some? && s.process.value.save.Written?
          && r.disk.file == Some(Whole(s.process.value.save.next)))
  {
    RunsAreSound(disk, actions);
  }

  /** Subscribers are woken exactly when the setting changes, so repeats wake nobody. */
  lemma WakesCountChanges(s: State, a: Action)
    requires s.process.Some? && a != Crash
    ensures Next(s, a).process.Some?
    ensures var p, q := s.process.value, Next(s, a).process.value;
      q.wakes == p.wakes + if q.channel != p.channel then 1 else 0
  {
  }

  /** A command that ends without publishing has changed nothing: not the file, not memory, not the channel. */
  lemma FailedCommandChangesNothing(disk: Disk, actions: seq<Action>, a: Action)
    requires var s := Run(State(disk, None), actions);
      && s.process.Some? && s.process.value.order.Asked?
      && Next(s, a).process.Some? && Next(s, a).process.value.order.NoOrder?
    ensures var s := Run(State(disk, None), actions);
      var p, q := s.process.value, Next(s, a).process.value;
      Next(s, a).disk.file == s.disk.file && q.mem == p.mem && q.channel == p.channel && q.wakes == p.wakes
  {
    RunsAreSound(disk, actions);
  }

  /** The disk, the memory and the channel all say `v`, and no command is under way. */
  ghost predicate Settled(s: State, v: bool) {
    && Load(s.disk).enabled == v
    && (s.process.Some? ==>
          var p := s.process.value;
          && p.mem.enabled == p.channel == v
          && p.order.NoOrder?
          && (!p.save.Idle? ==> p.save.writer == Refresher))
  }

  lemma NextKeepsSettled(s: State, v: bool, a: Action)
    requires Sound(s) && Settled(s, v) && !a.Begin?
    ensures Settled(Next(s, a), v)
  {
  }

  lemma {:induction false} StaysSettled(s: State, v: bool, actions: seq<Action>)
    requires Sound(s) && Settled(s, v) && forall i | 0 <= i < |actions| :: !actions[i].Begin?
    ensures Sound(Run(s, actions)) && Settled(Run(s, actions), v)
  {
    if actions != [] {
      hide Sound, Settled, Next;
      var n := |actions| - 1;
      StaysSettled(s, v, actions[..n]);
      NextKeepsSound(Run(s, actions[..n]), actions[n]);
      NextKeepsSettled(Run(s, actions[..n]), v, actions[n]);
    }
  }

  /**
   * A setting in force between commands survives any crashes, restarts and
   * refresher writes, failed or not, until the next command.
   */
  lemma SettingSurvives(disk: Disk, actions: seq<Action>, later: seq<Action>)
    requires var s := Run(State(disk, None), actions);
      s.process.Some? && s.process.value.order.NoOrder?
    requires forall i | 0 <= i < |later| :: !later[i].Begin?
    ensures var s := Run(State(disk, None), actions);
      var r := Run(s, later);
      && Load(r.disk).enabled == s.process.value.channel
      && (r.process.Some? ==> r.process.value.channel == s.process.value.channel)
  {
    RunsAreSound(disk, actions);
    var s := Run(State(disk, None), actions);
    StaysSettled(s, s.process.value.channel, later);
  }

  /** A service that starts without a readable file is enabled, and nothing is put off. */
  lemma FirstStartIsEnabled(disk: Disk)
    requires disk.file.None? || disk.file.value == Torn
    ensures var s := Next(State(disk, None), Start);
      && s.disk == disk && s.process.Some?
      && s.process.value.channel && s.process.value.mem.enabled && s.process.value.mem.notBefore == None
  {
  }

  /** The setting of the last command that got the lock. */
  ghost function Commanded(disk: Disk, actions: seq<Action>): Option<bool> {
    if actions == [] then None
    else
      var n := |actions| - 1;
      var s := Run(State(disk, None), actions[..n]);
      if actions[n].Begin? && s.process.Some? && s.process.value.order == NoOrder then Some(actions[n].enabled)
      else Commanded(disk, actions[..n])
  }

  /** Over every interleaving, what is put out is what the command under way asked for. */
  lemma {:induction false} PublishedIsTheCommand(disk: Disk, actions: seq<Action>)
    ensures var s := Run(State(disk, None), actions);
      s.process.Some? && s.process.value.order != NoOrder ==>
        Commanded(disk, actions) == Some(s.process.value.order.enabled)
    ensures var s := Run(State(disk, None), actions);
      Publishing(s) ==> Commanded(disk, actions) == Some(Next(s, Publish).process.value.channel)
  {
    if actions != [] {
      var n := |actions| - 1;
      PublishedIsTheCommand(disk, actions[..n]);
      RunsAreSound(disk, actions[..n]);
    }
  }

  /** The time that disk and memory hold, unless the refresher is replacing it. */
  ghost predicate PutOff(s: State, t: Option<int>) {
    && Load(s.disk).notBefore == t
    && (s.process.Some? ==>
          var p := s.process.value;
          p.mem.notBefore == t && (!p.save.Idle? ==> p.save.next.notBefore == t))
  }

  lemma NextKeepsPutOff(s: State, t: Option<int>, a: Action)
    requires Sound(s) && PutOff(s, t) && !a.UpdateNotBefore?
    ensures PutOff(Next(s, a), t)
  {
  }

  lemma {:induction false} StaysPutOff(s: State, t: Option<int>, actions: seq<Action>)
    requires Sound(s) && PutOff(s, t) && forall i | 0 <= i < |actions| :: !actions[i].UpdateNotBefore?
    ensures Sound(Run(s, actions)) && PutOff(Run(s, actions), t)
  {
    if actions != [] {
      hide Sound;
      var n := |actions| - 1;
      StaysPutOff(s, t, actions[..n]);
      NextKeepsSound(Run(s, actions[..n]), actions[n]);
      NextKeepsPutOff(Run(s, actions[..n]), t, actions[n]);
    }
  }

  lemma RunOfFive(s: State, a: seq<Action>)
    requires |a| == 5
    ensures Run(s, a) == Next(Next(Next(Next(Next(s, a[0]), a[1]), a[2]), a[3]), a[4])
  {
    hide Next;
    assert a[..5] == a && a[..0] == [];
    forall k: nat | k < 5 ensures Run(s, a[..k + 1]) == Next(Run(s, a[..k]), a[k]) {
      assert a[..k + 1][..k] == a[..k];
    }
    assert Run(s, a[..1]) == Next(s, a[0]);
    assert Run(s, a[..2]) == Next(Run(s, a[..1]), a[1]);
    assert Run(s, a[..3]) == Next(Run(s, a[..2]), a[2]);
    assert Run(s, a[..4]) == Next(Run(s, a[..3]), a[3]);
    assert Run(s, a[..5]) == Next(Run(s, a[..4]), a[4]);
  }

  lemma WriteNotBefore(s: State, t: Option<int>)
    requires Sound(s) && s.process.Some? && s.process.value.save == Idle
    ensures var w := Next(Next(Next(Next(Next(s, UpdateNotBefore(t)), CreateTemp(true)), WriteTemp(true)),
                               RenameTemp(true)), Apply);
      && Sound(w) && PutOff(w, t) && Load(w.disk) == Load(s.disk).(notBefore := t)
      && w.process == Some(s.process.value.(mem := s.process.value.mem.(notBefore := t)))
  {
    var p := s.process.value;
    var next := p.mem.(notBefore := t);
    var s1 := Next(s, UpdateNotBefore(t));
    if next == p.mem {
      assert s1 == s;
    } else {
      assert s1 == State(s.disk, Some(p.(save := Starting(Refresher, next))));
      var s4 := Next(Next(Next(s1, CreateTemp(true)), WriteTemp(true)), RenameTemp(true));
      assert s4 == State(Disk(Some(Whole(next)), None), Some(p.(save := Renamed(Refresher, next))));
      assert Next(s4, Apply) == State(Disk(Some(Whole(next)), None), Some(p.(mem := next)));
    }
  }

  /**
   * The refresher's time reaches the file: uninterrupted, its write leaves the time on
   * disk and in memory, the setting as it was, and nobody is woken. Commands, failed
   * writes, crashes and restarts then keep the time until the refresher's next write.
   */
  lemma NotBeforeSurvives(disk: Disk, actions: seq<Action>, t: Option<int>, later: seq<Action>)
    requires var s := Run(State(disk, None), actions);
      s.process.Some? && s.process.value.save == Idle
    requires forall i | 0 <= i < |later| :: !later[i].UpdateNotBefore?
    ensures var s := Run(State(disk, None), actions);
      var w := Run(s, [UpdateNotBefore(t), CreateTemp(true), WriteTemp(true), RenameTemp(true), Apply]);
      && Load(w.disk) == Load(s.disk).(notBefore := t)
      && w.process == Some(s.process.value.(mem := s.process.value.mem.(notBefore := t)))
      && Load(Run(w, later).disk).notBefore == t
  {
    hide Next;
    RunsAreSound(disk, actions);
    var s := Run(State(disk, None), actions);
    var steps := [UpdateNotBefore(t), CreateTemp(true), WriteTemp(true), RenameTemp(true), Apply];
    RunOfFive(s, steps);
    WriteNotBefore(s, t);
    StaysPutOff(Run(s, steps), t, later);
  }

  // -------------------------------------------------------- the code in sequence

  /** Where an atomic write stops. */
  datatype Outcome = CreateFails | WriteFails | RenameFails | Succeeds

  /** The steps of one command that nothing interrupts. */
  function CommandSteps(enabled: bool, io: Outcome): seq<Action> {
    [Begin(enabled), UpdateEnabled, CreateTemp(!io.CreateFails?), WriteTemp(!io.WriteFails?),
     RenameTemp(!io.RenameFails?), Apply, Publish]
  }

  /** What an atomic write that stops there leaves on disk. */
  function DiskAfter(disk: Disk, next: Setting, io: Outcome): Disk {
    match io
    case CreateFails => disk
    case WriteFails => disk.(tmp := Some(Torn))
    case RenameFails => disk.(tmp := Some(Whole(next)))
    case Succeeds => Disk(Some(Whole(next)), None)
  }

  lemma RunCommand(s: State, enabled: bool, io: Outcome)
    ensures Run(s, CommandSteps(enabled, io)) ==
      Next(Next(Next(Next(Next(Next(Next(s, Begin(enabled)), UpdateEnabled), CreateTemp(!io.CreateFails?)),
        WriteTemp(!io.WriteFails?)), RenameTemp(!io.RenameFails?)), Apply), Publish)
  {
    hide Next;
    var a := CommandSteps(enabled, io);
    assert a[..7] == a && a[..0] == [];
    forall k: nat | k < 7 ensures Run(s, a[..k + 1]) == Next(Run(s, a[..k]), a[k]) {
      assert a[..k + 1][..k] == a[..k];
    }
    assert Run(s, a[..1]) == Next(s, a[0]);
    assert Run(s, a[..2]) == Next(Run(s, a[..1]), a[1]);
    assert Run(s, a[..3]) == Next(Run(s, a[..2]), a[2]);
    assert Run(s, a[..4]) == Next(Run(s, a[..3]), a[3]);
    assert Run(s, a[..5]) == Next(Run(s, a[..4]), a[4]);
    assert Run(s, a[..6]) == Next(Run(s, a[..5]), a[5]);
    assert Run(s, a[..7]) == Next(Run(s, a[..6]), a[6]);
  }

  lemma CommandEndsAs(disk: Disk, mem: Setting, channel: bool, wakes: nat, enabled: bool, io: Outcome)
    ensures var next := mem.(enabled := enabled);
      var ok := next == mem || io.Succeeds?;
      Run(State(disk, Some(Process(mem, channel, wakes, NoOrder, Idle))), CommandSteps(enabled, io)) ==
        State(if next == mem then disk else DiskAfter(disk, next, io),
              Some(Process(if ok then next else mem, if ok then enabled else channel,
                           wakes + if ok && channel != enabled then 1 else 0, NoOrder, Idle)))
  {
    hide Run, CommandSteps;
    var p := Process(mem, channel, wakes, NoOrder, Idle);
    RunCommand(State(disk, Some(p)), enabled, io);
    var s1 := Next(State(disk, Some(p)), Begin(enabled));
    assert s1 == State(disk, Some(p.(order := Asked(enabled))));
    var s2 := Next(s1, UpdateEnabled);
    var next := mem.(enabled := enabled);
    if next == mem {
      var q := p.(order := Persisted(enabled));
      assert s2 == State(disk, Some(q));
    } else {
      assert s2 == State(disk, Some(p.(order := Asked(enabled), save := Starting(Commander, next))));
      var s3 := Next(s2, CreateTemp(!io.CreateFails?));
      var s4 := Next(s3, WriteTemp(!io.WriteFails?));
      var s5 := Next(s4, RenameTemp(!io.RenameFails?));
      assert io.Succeeds? ==>
        s5 == State(DiskAfter(disk, next, io), Some(p.(order := Asked(enabled), save := Renamed(Commander, next))));
      assert !io.Succeeds? ==> s5 == State(DiskAfter(disk, next, io), Some(p));
    }
  }

  class Control {
    var disk: Disk
    var mem: Setting
    var desired: bool
    var wakes: nat

    ghost function Snapshot(): State
      reads this
    {
      State(disk, Some(Process(mem, desired, wakes, NoOrder, Idle)))
    }

    /** Starts from the setting the store holds. */
    constructor (disk: Disk)
      ensures Snapshot() == Next(State(disk, None), Start)
    {
      this.disk := disk;
      mem := Load(disk);
      desired := Load(disk).enabled;
      wakes := 0;
    }

    /** The directory and the temporary file, its bytes, then the rename. */
    method WriteAtomic(next: Setting, io: Outcome) returns (ok: bool)
      modifies this`disk
      ensures ok <==> io.Succeeds?
      ensures disk == DiskAfter(old(disk), next, io)
    {
      if io.CreateFails? { return false; }
      disk := disk.(tmp := Some(Torn));
      if io.WriteFails? { return false; }
      disk := disk.(tmp := Some(Whole(next)));
      if io.RenameFails? { return false; }
      disk := Disk(disk.tmp, None);
      return true;
    }

    /** Written before it is applied; a change of nothing does not touch the disk. */
    method Update(next: Setting, io: Outcome) returns (ok: bool)
      modifies this`disk, this`mem
      ensures ok <==> next == old(mem) || io.Succeeds?
      ensures mem == if ok then next else old(mem)
      ensures disk == if next == old(mem) then old(disk) else DiskAfter(old(disk), next, io)
    {
      if next == mem {
        return true;
      }
      ok := WriteAtomic(next, io);
      if ok {
        mem := next;
      }
    }

    /** One command, from taking the lock to releasing it: the steps of the protocol, uninterrupted. */
    method SetEnabled(enabled: bool, io: Outcome) returns (ok: bool)
      modifies this
      ensures Snapshot() == Run(old(Snapshot()), CommandSteps(enabled, io))
      ensures ok <==> old(mem).enabled == enabled || io.Succeeds?
      ensures ok ==> desired == mem.enabled == enabled && mem.notBefore == old(mem).notBefore
      ensures ok ==> wakes == old(wakes) + if old(desired) == enabled then 0 else 1
      ensures ok && Load(old(disk)) == old(mem) ==> Load(disk) == mem
      ensures !ok ==> mem == old(mem) && desired == old(desired) && wakes == old(wakes) && disk.file == old(disk).file
    {
      hide Next, Run, CommandSteps;
      CommandEndsAs(disk, mem, desired, wakes, enabled, io);
      ok := Update(mem.(enabled := enabled), io);
      if ok {
        wakes := wakes + if desired != enabled then 1 else 0;
        desired := enabled;
      }
    }
  }
}
