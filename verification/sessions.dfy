/**
 What a whole update session guarantees, whatever the operator types: the
 facts `main` relies on when it prints its summary and writes the updated
 devices and the invalid addresses out.
 */
module Sessions {
  import opened Text
  import opened Address
  import opened Inventory
  import opened Machine

  /** Typing the quit sentinel (in any case) at the first prompt ends the
      session with nothing changed, even when an inventory device is itself
      named `x`. */
  lemma QuitFirst(routers: map<string, string>, switches: map<string, string>, lines: seq<string>)
    requires |lines| > 0 && Lower(lines[0]) == Quit
    ensures Run(routers, switches, lines) == Finished(Start(routers, switches))
    ensures var f := Run(routers, switches, lines).final;
      f.updated == map[] && f.devicesUpdatedCount == 0 && f.invalidIPCount == 0 && f.invalidIPAddresses == []
  {
  }

  /** Input that never names a device or the quit sentinel runs out at the
      device prompt. */
  lemma NoDeviceRunsOut(routers: map<string, string>, switches: map<string, string>, lines: seq<string>)
    requires forall j :: 0 <= j < |lines| ==> !Selectable(routers, switches, Lower(lines[j]))
    ensures Run(routers, switches, lines) == EndOfInput
  {
    GetValidDeviceSpec(routers, switches, lines, 0);
  }

  /** A finished session reports as many invalid addresses as its log holds,
      every one of them a line that fails the IP check; every updated device
      is a lower-case inventory name other than `x` holding a valid address,
      which sits in `routers` when the name contains `r` and in `switches`
      otherwise; and since updating a device again overwrites its entry,
      there are never more updated devices than updates counted. */
  lemma FinishedSession(routers0: map<string, string>, switches0: map<string, string>, lines: seq<string>)
    ensures var r := Run(routers0, switches0, lines);
      r.Finished? ==>
        var f := r.final;
        && f.invalidIPCount == |f.invalidIPAddresses|
        && (forall a :: a in f.invalidIPAddresses ==> !ValidIP(a))
        && (forall k :: k in f.updated ==> (k in routers0 || k in switches0) && Lower(k) == k && k != Quit && ValidIP(f.updated[k]))
        && (forall k :: k in f.updated && 'r' in k ==> k in f.routers && f.routers[k] == f.updated[k])
        && (forall k :: k in f.updated && 'r' !in k ==> k in f.switches && f.switches[k] == f.updated[k])
        && f.routers.Keys + f.switches.Keys == routers0.Keys + switches0.Keys
        && |f.updated| <= f.devicesUpdatedCount
  {
    SessionInvariant(routers0, switches0, lines);
  }

  /** Every entry of the machine's invalid-address log is a line the
      operator typed, as long as that held when it started. */
  lemma {:induction false} RunLogsInputLines(c: Config, lines: seq<string>, at: nat)
    requires forall a :: a in c.s.invalidIPAddresses ==> a in lines
    ensures forall a :: a in RunLines(c, lines, at).s.invalidIPAddresses ==> a in lines
    decreases |lines| - at
  {
    if at < |lines| {
      var c' := Step(c, lines[at]);
      assert forall a :: a in c'.s.invalidIPAddresses ==> a in c.s.invalidIPAddresses || a == lines[at];
      RunLogsInputLines(c', lines, at + 1);
    }
  }

  /** The invalid addresses a finished session reports are lines the
      operator typed. */
  lemma LogHoldsInputLines(routers0: map<string, string>, switches0: map<string, string>, lines: seq<string>)
    ensures var r := Run(routers0, switches0, lines);
      r.Finished? ==> forall a :: a in r.final.invalidIPAddresses ==> a in lines
  {
    RunSessionIsMachine(Start(routers0, switches0), lines, 0);
    RunLogsInputLines(AwaitingDevice(Start(routers0, switches0)), lines, 0);
  }

  /** One round of the loop with a good address typed at once: the device
      is updated and the loop goes on two lines later. */
  lemma UpdateRound(s: Session, lines: seq<string>, at: nat, device: string)
    requires at + 1 < |lines| && Lower(lines[at]) == device && device != Quit
    requires device in s.routers || device in s.switches
    requires ValidIP(lines[at + 1])
    ensures RunSession(s, lines, at) == RunSession(ApplyUpdate(s, device, lines[at + 1]), lines, at + 2)
  {
    GetValidDeviceStep(s.routers, s.switches, lines, at);
    GetValidIPStep(lines, at + 1, s.invalidIPCount, s.invalidIPAddresses);
    assert s.(invalidIPCount := s.invalidIPCount, invalidIPAddresses := s.invalidIPAddresses) == s;
  }

  /** One round of the loop in which the first address is rejected: it is
      counted and logged, and the second one is applied. */
  lemma RetryRound(s: Session, lines: seq<string>, at: nat, device: string)
    requires at + 2 < |lines| && Lower(lines[at]) == device && device != Quit
    requires device in s.routers || device in s.switches
    requires !ValidIP(lines[at + 1]) && ValidIP(lines[at + 2])
    ensures var s' := s.(invalidIPCount := s.invalidIPCount + 1, invalidIPAddresses := s.invalidIPAddresses + [lines[at + 1]]);
      RunSession(s, lines, at) == RunSession(ApplyUpdate(s', device, lines[at + 2]), lines, at + 3)
  {
    GetValidDeviceStep(s.routers, s.switches, lines, at);
    GetValidIPStep(lines, at + 1, s.invalidIPCount, s.invalidIPAddresses);
    GetValidIPStep(lines, at + 2, s.invalidIPCount + 1, s.invalidIPAddresses + [lines[at + 1]]);
  }

  /** The quit sentinel ends the loop where it is typed, whatever follows. */
  lemma QuitRound(s: Session, lines: seq<string>, at: nat)
    requires at < |lines| && Lower(lines[at]) == Quit
    ensures RunSession(s, lines, at) == Finished(s)
  {
    GetValidDeviceStep(s.routers, s.switches, lines, at);
  }
}
