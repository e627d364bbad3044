/**
 The interactive update session of `networkFileRW.py`: the device prompt
 (`getValidDevice`), the IP prompt (`getValidIP`) and the loop in `main`
 that applies each update. Console input is the finite sequence of lines
 the operator types, read through a cursor: every prompt reads lines from
 the cursor on and hands back the cursor just past the line it accepted.
 Running out of lines, where Python's `input()` raises `EOFError`, is the
 distinct outcome `EndOfInput`.
 */
module Inventory {
  import opened Text
  import opened Address

  /** The state `main` keeps across iterations of its loop. */
  datatype Session = Session(
    routers: map<string, string>,
    switches: map<string, string>,
    updated: map<string, string>,
    invalidIPAddresses: seq<string>,
    invalidIPCount: nat,
    devicesUpdatedCount: nat)

  /** The quit sentinel of the device prompt. */
  const Quit: string := "x"

  /** What a prompt read: a value, with the cursor just past the line that
      gave it, or nothing because the input ran out first. */
  datatype Read<T> = Exhausted | Got(value: T, next: nat)

  /** How a session ends: the operator quits, or the input runs out. */
  datatype Outcome = Finished(final: Session) | EndOfInput

  /** What `getValidIP` hands back: the accepted line and the updated
      invalid-address accumulators. */
  datatype Accepted = Accepted(ip: string, invalidIPCount: nat, invalidIPAddresses: seq<string>)

  /** The session state before the first prompt. */
  function Start(routers: map<string, string>, switches: map<string, string>): Session
  {
    Session(routers, switches, map[], [], 0, 0)
  }

  /** A lowered device name the device prompt accepts. */
  predicate Selectable(routers: map<string, string>, switches: map<string, string>, device: string) {
    device in routers || device in switches || device == Quit
  }

  /** `getValidDevice`: lowers each line from the cursor on until one names
      a router, a switch or the quit sentinel, and returns that lowered line. */
  function GetValidDevice(routers: map<string, string>, switches: map<string, string>, lines: seq<string>, at: nat): (r: Read<string>)
    ensures r.Got? ==> at < r.next <= |lines| && r.value == Lower(lines[r.next - 1])
    ensures r.Got? ==> Selectable(routers, switches, r.value)
    decreases |lines| - at
  {
    if at >= |lines| then Exhausted
    else
      var device := Lower(lines[at]);
      if device in routers then Got(device, at + 1)
      else if device in switches then Got(device, at + 1)
      else if device == Quit then Got(device, at + 1)
      else GetValidDevice(routers, switches, lines, at + 1)
  }

  /** `getValidIP`: reads lines from the cursor on until one passes the IP
      check; every line rejected on the way bumps the count and is appended,
      verbatim, to the log. The accepted line is returned unchanged. */
  function GetValidIP(lines: seq<string>, at: nat, invalidIPCount: nat, invalidIPAddresses: seq<string>): (r: Read<Accepted>)
    ensures r.Got? ==> at < r.next <= |lines| && r.value.ip == lines[r.next - 1]
    decreases |lines| - at
  {
    if at >= |lines| then Exhausted
    else
      var ipAddress := lines[at];
      var octets := Split(ipAddress, '.');
      if |octets| != 4 then
        GetValidIP(lines, at + 1, invalidIPCount + 1, invalidIPAddresses + [ipAddress])
      else if !AllOctets(octets) then
        GetValidIP(lines, at + 1, invalidIPCount + 1, invalidIPAddresses + [ipAddress])
      else Got(Accepted(ipAddress, invalidIPCount, invalidIPAddresses), at + 1)
  }

  /** The update step of the loop: the address goes into `routers` when the
      name contains the letter `r` and into `switches` otherwise (whatever
      map the name was found in), `updated` records it, and the count of
      updated devices goes up by one. */
  function ApplyUpdate(s: Session, device: string, ip: string): Session
  {
    var s' := if 'r' in device then s.(routers := s.routers[device := ip])
              else s.(switches := s.switches[device := ip]);
    s'.(devicesUpdatedCount := s.devicesUpdatedCount + 1, updated := s.updated[device := ip])
  }

  /** The session after an accepted address: the accumulators `getValidIP`
      handed back, then the update applied. */
  function Applied(s: Session, device: string, a: Accepted): Session
  {
    ApplyUpdate(s.(invalidIPCount := a.invalidIPCount, invalidIPAddresses := a.invalidIPAddresses), device, a.ip)
  }

  /** The update writes the address under the device name in the router
      map when the name contains `r` and in the switch map otherwise,
      leaving the other map as it was; no other entry changes, the set of
      names across both maps only gains the device, `updated` maps the
      device to the new address, one more update is counted, and the
      invalid-address accumulators are untouched. */
  lemma ApplyUpdateSpec(s: Session, device: string, ip: string)
    ensures var r := ApplyUpdate(s, device, ip);
      && ('r' in device ==> device in r.routers && r.routers[device] == ip && r.switches == s.switches)
      && ('r' !in device ==> device in r.switches && r.switches[device] == ip && r.routers == s.routers)
      && ('r' in device ==> r.routers.Keys == s.routers.Keys + {device})
      && ('r' !in device ==> r.switches.Keys == s.switches.Keys + {device})
      && r.routers.Keys + r.switches.Keys == s.routers.Keys + s.switches.Keys + {device}
      && (forall k :: k in s.routers && k != device ==> k in r.routers && r.routers[k] == s.routers[k])
      && (forall k :: k in s.switches && k != device ==> k in r.switches && r.switches[k] == s.switches[k])
      && r.updated.Keys == s.updated.Keys + {device} && r.updated[device] == ip
      && (forall k :: k in s.updated && k != device ==> r.updated[k] == s.updated[k])
      && r.devicesUpdatedCount == s.devicesUpdatedCount + 1
      && r.invalidIPAddresses == s.invalidIPAddresses && r.invalidIPCount == s.invalidIPCount
  {
  }

  /** The loop of `main` from the cursor on: prompt for a device, stop on
      the quit sentinel, otherwise prompt for an address, apply the update,
      and go round again. */
  function RunSession(s: Session, lines: seq<string>, at: nat): Outcome
    decreases |lines| - at
  {
    var d := GetValidDevice(s.routers, s.switches, lines, at);
    if d.Exhausted? then EndOfInput
    else if d.value == Quit then Finished(s)
    else
      var q := GetValidIP(lines, d.next, s.invalidIPCount, s.invalidIPAddresses);
      if q.Exhausted? then EndOfInput
      else RunSession(Applied(s, d.value, q.value), lines, q.next)
  }

  /** A whole session: the operator's input from its first line, starting
      from the inventory read at start-up. */
  function Run(routers: map<string, string>, switches: map<string, string>, lines: seq<string>): Outcome
  {
    RunSession(Start(routers, switches), lines, 0)
  }

  /** One line at the device prompt: it is accepted, lowered, when it
      names a router, a switch or the quit sentinel, and skipped otherwise. */
  lemma GetValidDeviceStep(routers: map<string, string>, switches: map<string, string>, lines: seq<string>, at: nat)
    requires at < |lines|
    ensures GetValidDevice(routers, switches, lines, at)
         == if Selectable(routers, switches, Lower(lines[at])) then Got(Lower(lines[at]), at + 1)
            else GetValidDevice(routers, switches, lines, at + 1)
  {
  }

  /** One line at the address prompt: it is accepted when it passes the IP
      check, and otherwise counted, logged and skipped. */
  lemma GetValidIPStep(lines: seq<string>, at: nat, invalidIPCount: nat, invalidIPAddresses: seq<string>)
    requires at < |lines|
    ensures GetValidIP(lines, at, invalidIPCount, invalidIPAddresses)
         == if ValidIP(lines[at]) then Got(Accepted(lines[at], invalidIPCount, invalidIPAddresses), at + 1)
            else GetValidIP(lines, at + 1, invalidIPCount + 1, invalidIPAddresses + [lines[at]])
  {
  }

  /** The device prompt returns the lowered form of the first line from the
      cursor on that names a router, a switch or the quit sentinel, after
      skipping every line before it; it runs out of input exactly when no
      remaining line qualifies. */
  lemma {:induction false} GetValidDeviceSpec(routers: map<string, string>, switches: map<string, string>, lines: seq<string>, at: nat)
    ensures var r := GetValidDevice(routers, switches, lines, at);
      && (r.Got? ==> forall j :: at <= j < r.next - 1 ==> !Selectable(routers, switches, Lower(lines[j])))
      && (r.Exhausted? <==> forall j :: at <= j < |lines| ==> !Selectable(routers, switches, Lower(lines[j])))
    decreases |lines| - at
  {
    if at < |lines| && !Selectable(routers, switches, Lower(lines[at])) {
      GetValidDeviceSpec(routers, switches, lines, at + 1);
    }
  }

  /** The IP prompt returns the first line from the cursor on that passes
      the IP check; each line before it was rejected. It runs out of input
      exactly when no remaining line passes. */
  lemma {:induction false} GetValidIPSpec(lines: seq<string>, at: nat, invalidIPCount: nat, invalidIPAddresses: seq<string>)
    ensures var r := GetValidIP(lines, at, invalidIPCount, invalidIPAddresses);
      && (r.Got? ==> ValidIP(r.value.ip))
      && (r.Got? ==> forall j :: at <= j < r.next - 1 ==> !ValidIP(lines[j]))
      && (r.Exhausted? <==> forall j :: at <= j < |lines| ==> !ValidIP(lines[j]))
    decreases |lines| - at
  {
    if at < |lines| && !ValidIP(lines[at]) {
      GetValidIPSpec(lines, at + 1, invalidIPCount + 1, invalidIPAddresses + [lines[at]]);
    }
  }

  /** Each rejected line adds exactly one to the count and appends itself,
      verbatim and in order, to the log: on acceptance the log has grown by
      precisely the lines skipped, and the count by their number. */
  lemma {:induction false} GetValidIPLog(lines: seq<string>, at: nat, invalidIPCount: nat, invalidIPAddresses: seq<string>)
    ensures var r := GetValidIP(lines, at, invalidIPCount, invalidIPAddresses);
      && (r.Got? ==> r.value.invalidIPAddresses == invalidIPAddresses + lines[at..r.next - 1])
      && (r.Got? ==> r.value.invalidIPCount == invalidIPCount + (r.next - 1 - at))
    decreases |lines| - at
  {
    if at < |lines| && !ValidIP(lines[at]) {
      var log' := invalidIPAddresses + [lines[at]];
      GetValidIPLog(lines, at + 1, invalidIPCount + 1, log');
      var r := GetValidIP(lines, at + 1, invalidIPCount + 1, log');
      if r.Got? {
        assert log' + lines[at + 1..r.next - 1] == invalidIPAddresses + lines[at..r.next - 1] by {
          assert lines[at..r.next - 1] == [lines[at]] + lines[at + 1..r.next - 1];
        }
      }
    }
  }
}
