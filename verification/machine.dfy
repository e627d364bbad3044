/**
 The update session as the line-at-a-time state machine it is: waiting for
 a device, waiting for an address for a chosen device, or finished. Each
 input line moves the machine by one step. This is an independent reading
 of the loop in `main`, and `RunSessionIsMachine` proves that it agrees with
 `Inventory.RunSession` on every input; the session invariants are then
 proved one step at a time.
 */
module Machine {
  import opened Text
  import opened Address
  import opened Inventory

  /** The prompt the session is at, with the state it carries. */
  datatype Config =
    | AwaitingDevice(s: Session)
    | AwaitingIP(s: Session, device: string)
    | Terminated(s: Session)

  /** One input line read at the current prompt. */
  function Step(c: Config, line: string): Config
  {
    match c
    case AwaitingDevice(s) =>
      var device := Lower(line);
      if device == Quit then Terminated(s)
      else if device in s.routers || device in s.switches then AwaitingIP(s, device)
      else c
    case AwaitingIP(s, device) =>
      if ValidIP(line) then AwaitingDevice(ApplyUpdate(s, device, line))
      else
        var s' := s.(invalidIPCount := s.invalidIPCount + 1,
                     invalidIPAddresses := s.invalidIPAddresses + [line]);
        AwaitingIP(s', device)
    case Terminated(_) => c
  }

  /** The machine after reading every line from the cursor on. */
  function RunLines(c: Config, lines: seq<string>, at: nat): Config
    decreases |lines| - at
  {
    if at >= |lines| then c else RunLines(Step(c, lines[at]), lines, at + 1)
  }

  /** A session ends when the machine has terminated; anywhere else the
      input ran out at a prompt. */
  function Observe(c: Config): Outcome
  {
    if c.Terminated? then Finished(c.s) else EndOfInput
  }

  /** Once terminated, the machine ignores the rest of the input. */
  lemma {:induction false} RunTerminated(s: Session, lines: seq<string>, at: nat)
    ensures RunLines(Terminated(s), lines, at) == Terminated(s)
    decreases |lines| - at
  {
    if at < |lines| {
      RunTerminated(s, lines, at + 1);
    }
  }

  /** The device prompt consumes exactly the lines the machine spends in
      its waiting-for-device state, and leaves it where the loop goes on. */
  lemma {:induction false} DevicePromptIsMachine(s: Session, lines: seq<string>, at: nat)
    ensures var r := GetValidDevice(s.routers, s.switches, lines, at);
      && (r.Exhausted? ==> RunLines(AwaitingDevice(s), lines, at) == AwaitingDevice(s))
      && (r.Got? ==> RunLines(AwaitingDevice(s), lines, at) == RunLines(if r.value == Quit then Terminated(s) else AwaitingIP(s, r.value), lines, r.next))
    decreases |lines| - at
  {
    if at < |lines| && !Selectable(s.routers, s.switches, Lower(lines[at])) {
      assert Step(AwaitingDevice(s), lines[at]) == AwaitingDevice(s);
      DevicePromptIsMachine(s, lines, at + 1);
    }
  }

  /** The IP prompt consumes exactly the lines the machine spends in its
      waiting-for-address state, and leaves the same accumulators. */
  lemma {:induction false} IPPromptIsMachine(s: Session, device: string, lines: seq<string>, at: nat)
    ensures var r := GetValidIP(lines, at, s.invalidIPCount, s.invalidIPAddresses);
      && (r.Exhausted? ==> RunLines(AwaitingIP(s, device), lines, at).AwaitingIP?)
      && (r.Got? ==> RunLines(AwaitingIP(s, device), lines, at) == RunLines(AwaitingDevice(Applied(s, device, r.value)), lines, r.next))
    decreases |lines| - at
  {
    if at < |lines| {
      var line := lines[at];
      if ValidIP(line) {
        assert s.(invalidIPCount := s.invalidIPCount, invalidIPAddresses := s.invalidIPAddresses) == s;
      } else {
        var s' := s.(invalidIPCount := s.invalidIPCount + 1,
                     invalidIPAddresses := s.invalidIPAddresses + [line]);
        assert Step(AwaitingIP(s, device), line) == AwaitingIP(s', device);
        IPPromptIsMachine(s', device, lines, at + 1);
      }
    }
  }

  /** The nested prompt loops of `main` and the line-at-a-time machine give
      the same outcome on every input. */
  lemma {:induction false} RunSessionIsMachine(s: Session, lines: seq<string>, at: nat)
    ensures RunSession(s, lines, at) == Observe(RunLines(AwaitingDevice(s), lines, at))
    decreases |lines| - at
  {
    var d := GetValidDevice(s.routers, s.switches, lines, at);
    DevicePromptIsMachine(s, lines, at);
    if d.Got? {
      if d.value == Quit {
        RunTerminated(s, lines, d.next);
      } else {
        var q := GetValidIP(lines, d.next, s.invalidIPCount, s.invalidIPAddresses);
        IPPromptIsMachine(s, d.value, lines, d.next);
        if q.Got? {
          RunSessionIsMachine(Applied(s, d.value, q.value), lines, q.next);
        }
      }
    }
  }

  /* ----------------------------------------------------------- invariants */

  /** No device is ever added to or removed from the inventory as a whole. */
  ghost predicate NamesKept(routers0: map<string, string>, switches0: map<string, string>, s: Session) {
    s.routers.Keys + s.switches.Keys == routers0.Keys + switches0.Keys
  }

  /** The invalid-address count is the length of the log, and the log holds
      rejected lines only. */
  ghost predicate LogConsistent(s: Session) {
    && s.invalidIPCount == |s.invalidIPAddresses|
    && (forall a :: a in s.invalidIPAddresses ==> !ValidIP(a))
  }

  /** A device name the update step may be given: an inventory name, in
      lower case, other than the quit sentinel. */
  ghost predicate Updatable(routers0: map<string, string>, switches0: map<string, string>, k: string) {
    (k in routers0 || k in switches0) && Lower(k) == k && k != Quit
  }

  /** Every updated device is an updatable name with an accepted address. */
  ghost predicate UpdatedWellFormed(routers0: map<string, string>, switches0: map<string, string>, s: Session) {
    forall k :: k in s.updated ==> Updatable(routers0, switches0, k) && ValidIP(s.updated[k])
  }

  /** The last address given to a device sits in the map its name selects. */
  ghost predicate UpdatesPlaced(s: Session) {
    forall k :: k in s.updated ==>
      if 'r' in k then k in s.routers && s.routers[k] == s.updated[k]
      else k in s.switches && s.switches[k] == s.updated[k]
  }

  /** Every other inventory entry still holds the address it started with. */
  ghost predicate OthersUntouched(routers0: map<string, string>, switches0: map<string, string>, s: Session) {
    && (forall k :: k in s.routers && !(k in s.updated && 'r' in k) ==> k in routers0 && s.routers[k] == routers0[k])
    && (forall k :: k in s.switches && !(k in s.updated && 'r' !in k) ==> k in switches0 && s.switches[k] == switches0[k])
  }

  /** What holds of the session state at every prompt, relative to the
      inventory the session started from. Repeated updates of one device
      overwrite each other, so there are never more updated devices than
      updates applied. */
  ghost predicate Invariant(routers0: map<string, string>, switches0: map<string, string>, s: Session) {
    && NamesKept(routers0, switches0, s)
    && LogConsistent(s)
    && UpdatedWellFormed(routers0, switches0, s)
    && UpdatesPlaced(s)
    && OthersUntouched(routers0, switches0, s)
    && |s.updated| <= s.devicesUpdatedCount
  }

  /** The invariant of a machine state; while it waits for an address, the
      device it holds is one the device prompt can have returned. */
  ghost predicate ConfigInvariant(routers0: map<string, string>, switches0: map<string, string>, c: Config) {
    && Invariant(routers0, switches0, c.s)
    && (c.AwaitingIP? ==> (c.device in c.s.routers || c.device in c.s.switches) && Updatable(routers0, switches0, c.device))
  }

  /** The session state before the first prompt satisfies the invariant. */
  lemma StartInvariant(routers0: map<string, string>, switches0: map<string, string>)
    ensures Invariant(routers0, switches0, Start(routers0, switches0))
  {
  }

  /** After an update the device's new address sits in the map its name
      selects, and earlier updates of other devices stay where they were. */
  lemma ApplyUpdatePlaces(s: Session, device: string, ip: string)
    requires UpdatesPlaced(s)
    ensures UpdatesPlaced(ApplyUpdate(s, device, ip))
  {
    var r := ApplyUpdate(s, device, ip);
    ApplyUpdateSpec(s, device, ip);
    forall k | k in r.updated
      ensures if 'r' in k then k in r.routers && r.routers[k] == r.updated[k]
              else k in r.switches && r.switches[k] == r.updated[k]
    {
      if k != device {
        assert k in s.updated;
      }
    }
  }

  /** An update changes no inventory entry other than the one it writes. */
  lemma ApplyUpdateLeavesOthers(routers0: map<string, string>, switches0: map<string, string>, s: Session, device: string, ip: string)
    requires OthersUntouched(routers0, switches0, s)
    ensures OthersUntouched(routers0, switches0, ApplyUpdate(s, device, ip))
  {
    var r := ApplyUpdate(s, device, ip);
    ApplyUpdateSpec(s, device, ip);
    forall k | k in r.routers && !(k in r.updated && 'r' in k)
      ensures k in routers0 && r.routers[k] == routers0[k]
    {
      if k == device {
        assert r.routers == s.routers;
      } else {
        assert k in s.routers && r.routers[k] == s.routers[k];
      }
    }
    forall k | k in r.switches && !(k in r.updated && 'r' !in k)
      ensures k in switches0 && r.switches[k] == switches0[k]
    {
      if k == device {
        assert r.switches == s.switches;
      } else {
        assert k in s.switches && r.switches[k] == s.switches[k];
      }
    }
  }

  /** Writing an address under a name already in the inventory adds no
      name to the inventory as a whole. */
  lemma ApplyUpdateKeepsNames(routers0: map<string, string>, switches0: map<string, string>, s: Session, device: string, ip: string)
    requires NamesKept(routers0, switches0, s)
    requires device in s.routers || device in s.switches
    ensures NamesKept(routers0, switches0, ApplyUpdate(s, device, ip))
  {
    ApplyUpdateSpec(s, device, ip);
  }

  /** Updating an updatable device with an accepted address keeps every
      entry of `updated` well formed. */
  lemma ApplyUpdateWellFormed(routers0: map<string, string>, switches0: map<string, string>, s: Session, device: string, ip: string)
    requires UpdatedWellFormed(routers0, switches0, s)
    requires Updatable(routers0, switches0, device) && ValidIP(ip)
    ensures UpdatedWellFormed(routers0, switches0, ApplyUpdate(s, device, ip))
  {
    var r := ApplyUpdate(s, device, ip);
    ApplyUpdateSpec(s, device, ip);
    forall k | k in r.updated
      ensures Updatable(routers0, switches0, k) && ValidIP(r.updated[k])
    {
      if k != device {
        assert k in s.updated;
      }
    }
  }

  /** The update step of the loop keeps the invariant, provided the device
      came from the device prompt and the address passed the IP check. */
  lemma ApplyUpdatePreservesInvariant(routers0: map<string, string>, switches0: map<string, string>, s: Session, device: string, ip: string)
    requires Invariant(routers0, switches0, s)
    requires device in s.routers || device in s.switches
    requires Updatable(routers0, switches0, device) && ValidIP(ip)
    ensures Invariant(routers0, switches0, ApplyUpdate(s, device, ip))
  {
    var r := ApplyUpdate(s, device, ip);
    ApplyUpdateSpec(s, device, ip);
    ApplyUpdateKeepsNames(routers0, switches0, s, device, ip);
    ApplyUpdateWellFormed(routers0, switches0, s, device, ip);
    ApplyUpdatePlaces(s, device, ip);
    ApplyUpdateLeavesOthers(routers0, switches0, s, device, ip);
    assert LogConsistent(r);
    assert |r.updated| <= |s.updated| + 1 by {
      assert r.updated.Keys == s.updated.Keys + {device};
    }
  }

  /** Every step of the machine keeps the invariant. */
  lemma StepPreservesInvariant(routers0: map<string, string>, switches0: map<string, string>, c: Config, line: string)
    requires ConfigInvariant(routers0, switches0, c)
    ensures ConfigInvariant(routers0, switches0, Step(c, line))
  {
    match c
    case AwaitingDevice(s) =>
      LowerIdempotent(line);
    case AwaitingIP(s, device) =>
      if ValidIP(line) {
        ApplyUpdatePreservesInvariant(routers0, switches0, s, device, line);
      }
    case Terminated(_) =>
  }

  /** Any number of steps keeps the invariant. */
  lemma {:induction false} RunPreservesInvariant(routers0: map<string, string>, switches0: map<string, string>, c: Config, lines: seq<string>, at: nat)
    requires ConfigInvariant(routers0, switches0, c)
    ensures ConfigInvariant(routers0, switches0, RunLines(c, lines, at))
    decreases |lines| - at
  {
    if at < |lines| {
      StepPreservesInvariant(routers0, switches0, c, lines[at]);
      RunPreservesInvariant(routers0, switches0, Step(c, lines[at]), lines, at + 1);
    }
  }

  /** Whatever the operator types, a session that finishes ends in a state
      satisfying the invariant: the inventory keeps its device names, the
      invalid count equals the length of the log of rejected lines, every
      updated entry is an inventory name with an accepted address, and so on. */
  lemma SessionInvariant(routers0: map<string, string>, switches0: map<string, string>, lines: seq<string>)
    ensures var r := Run(routers0, switches0, lines);
      r.Finished? ==> Invariant(routers0, switches0, r.final)
  {
    var c0 := AwaitingDevice(Start(routers0, switches0));
    RunSessionIsMachine(Start(routers0, switches0), lines, 0);
    RunPreservesInvariant(routers0, switches0, c0, lines, 0);
  }
}
