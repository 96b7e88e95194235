/** Device discovery of the adapter: the running scan, the scan expected after it, and whether LE scanning is wanted. */
module Discovery {
  import opened Common

  type ScanType = bv8

  const SCAN_TYPE_NONE: ScanType := 0
  const SCAN_TYPE_BREDR: ScanType := 1
  const SCAN_TYPE_LE: ScanType := 6
  const SCAN_TYPE_DUAL: ScanType := 7

  datatype Status = SUCCESS | NOT_READY | FAILED | BUSY

  /** HAL_DISCOVERY_STATE_STARTED and HAL_DISCOVERY_STATE_STOPPED */
  datatype State = STARTED | STOPPED

  /** What start_discovery and stop_discovery hand to the kernel. */
  datatype Command = StartDiscovery(scan: ScanType) | StopDiscovery(scan: ScanType)

  /** A command, and whether the kernel took it. */
  datatype Handed = Handed(command: Command, taken: bool)

  /** check_discovery_state: only a scan of all supported types is Android's business. */
  function Notice(supported: ScanType, now: ScanType, was: ScanType): Option<State> {
    if now == supported then Some(STARTED)
    else if was == supported then Some(STOPPED)
    else None
  }

  predicate Alternating(events: seq<State>) {
    forall i :: 0 <= i < |events| ==> events[i] == if i % 2 == 0 then STARTED else STOPPED
  }

  /** Android has been told STARTED and STOPPED in turn, STARTED last exactly while all supported types are being
      scanned. */
  predicate Follows(events: seq<State>, supported: ScanType, cur: ScanType) {
    && supported != SCAN_TYPE_NONE && Alternating(events)
    && (cur == supported <==> events != [] && events[|events| - 1] == STARTED)
  }

  function Noted(events: seq<State>, notice: Option<State>): seq<State> {
    if notice.Some? then events + [notice.value] else events
  }

  /** A scan begins or ends: the notice, if there is one, is the other one of the two. */
  lemma NoticeFollows(events: seq<State>, supported: ScanType, now: ScanType, was: ScanType)
    requires now == SCAN_TYPE_NONE || was == SCAN_TYPE_NONE
    requires Follows(events, supported, was)
    ensures Follows(Noted(events, Notice(supported, now, was)), supported, now)
  {
  }

  /** The supported types may change to `types` without Android noticing: it is told the truth before and after. */
  predicate Safe(supported: ScanType, types: ScanType, cur: ScanType) {
    types != SCAN_TYPE_NONE && (cur == supported <==> cur == types)
  }

  /** A change of the supported types keeps Android's picture right exactly when it is safe; between scans every change
      to some supported type is. */
  lemma ChangeKeeps(events: seq<State>, supported: ScanType, types: ScanType, cur: ScanType)
    requires Follows(events, supported, cur)
    ensures Follows(events, types, cur) <==> Safe(supported, types, cur)
    ensures cur == SCAN_TYPE_NONE ==> (Safe(supported, types, cur) <==> types != SCAN_TYPE_NONE)
  {
  }

  /** What Android was told once too often stays told. */
  lemma NeverAgain(events: seq<State>, more: seq<State>)
    requires !Alternating(events)
    ensures !Alternating(events + more)
  {
    var i :| 0 <= i < |events| && events[i] != if i % 2 == 0 then STARTED else STOPPED;
    assert (events + more)[i] == events[i];
  }

  /** What does not alternate: a repetition, and STOPPED first. */
  lemma Repeated(events: seq<State>, s: State)
    requires if events == [] then s == STOPPED else events[|events| - 1] == s
    ensures !Alternating(events + [s])
  {
    var all := events + [s];
    assert all[|events|] == s;
    assert events != [] ==> all[|events| - 1] == s;
  }

  /** What goes on scanning with no supported type sends: STOPPED when a scan begins, STARTED when it ends. */
  function Inverted(n: nat): seq<State> {
    if n == 0 then [] else Inverted(n - 1) + [STOPPED, STARTED]
  }

  datatype Op =
    | Discovering(scan: ScanType, discovering: bool)
    | StartCmd | CancelCmd | LeStart | LeStop(cb: Option<nat>)
    | Power(on: bool) | Support(types: ScanType)

  class Adapter {
    var powered: bool
    var supported: ScanType
    var leScanning: bool
    var cur: ScanType
    var exp: ScanType
    /** gatt_discovery_stopped_cb */
    var stoppedCb: Option<nat>

    ghost var android: seq<State>
    ghost var commands: seq<Handed>
    /** The scans start_discovery has been asked for. */
    ghost var attempts: seq<ScanType>
    ghost var fired: seq<nat>

    /** While a scan runs and LE scanning is wanted, another scan that includes LE is expected; it is a dual one only
        while the running scan is an LE scan. */
    ghost predicate Valid()
      reads this
    {
      && exp in {SCAN_TYPE_NONE, SCAN_TYPE_LE, SCAN_TYPE_DUAL}
      && (cur != SCAN_TYPE_NONE && leScanning ==> exp != SCAN_TYPE_NONE)
      && (cur != SCAN_TYPE_NONE && exp == SCAN_TYPE_DUAL ==> cur == SCAN_TYPE_LE)
    }

    ghost predicate Told()
      reads this
    {
      Follows(android, supported, cur)
    }

    constructor (supported: ScanType)
      ensures Valid() && this.supported == supported && cur == SCAN_TYPE_NONE && !leScanning
      ensures supported != SCAN_TYPE_NONE ==> Told()
    {
      powered, this.supported, leScanning, cur, exp, stoppedCb := false, supported, false, 0, 0, None;
      android, commands, attempts, fired := [], [], [], [];
    }

    /** mgmt_send: whether the kernel takes the command. */
    method MgmtSend(ghost command: Command) returns (ok: bool)
      modifies this`commands
      ensures commands == old(commands) + [Handed(command, ok)]
    {
      ok := *;
      commands := commands + [Handed(command, ok)];
    }

    /** What start_discovery and stop_discovery have handed over: nothing of a type that is not supported. */
    ghost predicate Started(before: seq<Handed>, scan: ScanType, ok: bool)
      reads this`commands, this`supported
    {
      if supported & scan == SCAN_TYPE_NONE then !ok && commands == before
      else commands == before + [Handed(Command.StartDiscovery(supported & scan), ok)]
    }

    ghost predicate Stopped(before: seq<Handed>, scan: ScanType, ok: bool)
      reads this`commands, this`supported
    {
      if supported & scan == SCAN_TYPE_NONE then !ok && commands == before
      else commands == before + [Handed(Command.StopDiscovery(supported & scan), ok)]
    }

    /** start_discovery */
    method StartDiscovery(scan: ScanType) returns (ok: bool)
      modifies this`commands, this`attempts
      ensures attempts == old(attempts) + [scan]
      ensures Started(old(commands), scan, ok)
    {
      attempts := attempts + [scan];
      if supported & scan == SCAN_TYPE_NONE {
        return false;
      }
      ok := MgmtSend(Command.StartDiscovery(supported & scan));
    }

    /** stop_discovery */
    method StopDiscovery(scan: ScanType) returns (ok: bool)
      modifies this`commands
      ensures Stopped(old(commands), scan, ok)
    {
      if supported & scan == SCAN_TYPE_NONE {
        return false;
      }
      ok := MgmtSend(Command.StopDiscovery(supported & scan));
    }

    /** check_discovery_state */
    method CheckDiscoveryState(now: ScanType, was: ScanType)
      modifies this`android
      ensures android == Noted(old(android), Notice(supported, now, was))
    {
      if now == supported {
        android := android + [STARTED];
        return;
      }
      if was != supported {
        return;
      }
      android := android + [STOPPED];
    }

    method ScanChanged(now: ScanType)
      requires now == SCAN_TYPE_NONE || cur == SCAN_TYPE_NONE
      modifies this`android, this`cur
      ensures cur == now && (old(Told()) ==> Told())
      ensures android == Noted(old(android), Notice(supported, now, old(cur)))
    {
      if Told() {
        NoticeFollows(android, supported, now, cur);
      }
      CheckDiscoveryState(now, cur);
      cur := now;
    }

    /** One shot notification about the end of a scan */
    method FireStopped()
      modifies this`stoppedCb, this`fired
      ensures stoppedCb == None && fired == old(fired) + match old(stoppedCb) case Some(cb) => [cb] case None => []
    {
      if stoppedCb.Some? {
        fired, stoppedCb := fired + [stoppedCb.value], None;
      }
    }

    /** The end of a scan: the callback that waited for it fires, and the scan expected next is attempted. */
    method ScanEnded()
      modifies this`stoppedCb, this`fired, this`exp, this`commands, this`attempts
      ensures stoppedCb == None
      ensures fired == old(fired) + match old(stoppedCb) case Some(cb) => [cb] case None => []
      ensures exp == (if leScanning then SCAN_TYPE_LE else SCAN_TYPE_NONE)
      ensures attempts == old(attempts) + (if old(exp) != SCAN_TYPE_NONE then [old(exp)] else [])
      ensures if old(exp) == SCAN_TYPE_NONE then commands == old(commands)
              else exists ok :: Started(old(commands), old(exp), ok)
    {
      FireStopped();
      var next := exp;
      exp := if leScanning then SCAN_TYPE_LE else SCAN_TYPE_NONE;
      if next != SCAN_TYPE_NONE {
        var ok := StartDiscovery(next);
        assert Started(old(commands), old(exp), ok);
      }
    }

    /** mgmt_discovering_event. Every end of a scan while LE scanning is wanted attempts another scan that includes
        LE, and fires the callback that waited for the end. */
    method MgmtDiscoveringEvent(scan: ScanType, discovering: bool)
      requires Valid()
      modifies this
      ensures Valid() && supported == old(supported) && leScanning == old(leScanning) && powered == old(powered)
      ensures old(Told()) ==> Told()
      ensures (old(cur) != SCAN_TYPE_NONE) == discovering ==>
                cur == old(cur) && exp == old(exp) && android == old(android) && attempts == old(attempts)
                && stoppedCb == old(stoppedCb) && fired == old(fired) && commands == old(commands)
      ensures (old(cur) != SCAN_TYPE_NONE) != discovering ==>
                && cur == (if discovering then scan else SCAN_TYPE_NONE)
                && android == Noted(old(android), Notice(supported, cur, old(cur)))
                && exp == (if leScanning then SCAN_TYPE_LE else SCAN_TYPE_NONE)
      ensures old(cur) == SCAN_TYPE_NONE && discovering ==>
                attempts == old(attempts) && stoppedCb == old(stoppedCb) && fired == old(fired)
                && commands == old(commands)
      ensures old(cur) != SCAN_TYPE_NONE && !discovering ==>
                && (if old(exp) == SCAN_TYPE_NONE then commands == old(commands)
                    else exists ok :: Started(old(commands), old(exp), ok))
                && attempts == old(attempts) + (if old(exp) != SCAN_TYPE_NONE then [old(exp)] else [])
                && (leScanning ==> old(exp) in {SCAN_TYPE_LE, SCAN_TYPE_DUAL})
                && stoppedCb == None
                && fired == old(fired) + match old(stoppedCb) case Some(cb) => [cb] case None => []
    {
      if (cur != SCAN_TYPE_NONE) == discovering {
        return;
      }
      ScanChanged(if discovering then scan else SCAN_TYPE_NONE);
      if discovering {
        exp := if leScanning then SCAN_TYPE_LE else SCAN_TYPE_NONE;
        return;
      }
      ScanEnded();
    }

    /** bt_le_discovery_start */
    method LeDiscoveryStart() returns (ok: bool)
      requires Valid()
      modifies this`leScanning, this`exp, this`commands, this`attempts
      ensures Valid() && (old(Told()) ==> Told())
      ensures leScanning == (old(leScanning) || powered)
      ensures if !powered then !ok && exp == old(exp) && attempts == old(attempts) && commands == old(commands)
              else if cur != SCAN_TYPE_NONE then
                ok && exp == SCAN_TYPE_LE && attempts == old(attempts) && commands == old(commands)
              else exp == old(exp) && attempts == old(attempts) + [SCAN_TYPE_LE]
                   && Started(old(commands), SCAN_TYPE_LE, ok)
    {
      if !powered {
        return false;
      }
      leScanning := true;
      if cur != SCAN_TYPE_NONE {
        exp := SCAN_TYPE_LE;
        return true;
      }
      ok := StartDiscovery(SCAN_TYPE_LE);
    }

    /** A running LE scan is stopped, and the callback waits for its end. */
    method StopLeScan(cb: Option<nat>) returns (ok: bool)
      modifies this`exp, this`commands, this`stoppedCb
      ensures Stopped(old(commands), SCAN_TYPE_LE, ok)
      ensures if ok then stoppedCb == cb && exp == SCAN_TYPE_NONE else stoppedCb == old(stoppedCb) && exp == old(exp)
    {
      ok := StopDiscovery(SCAN_TYPE_LE);
      if ok {
        stoppedCb, exp := cb, SCAN_TYPE_NONE;
      }
    }

    /** bt_le_discovery_stop */
    method LeDiscoveryStop(cb: Option<nat>) returns (ok: bool)
      requires Valid()
      modifies this`leScanning, this`exp, this`commands, this`stoppedCb, this`fired
      ensures Valid() && (old(Told()) ==> Told())
      ensures if !powered then
                !ok && leScanning == old(leScanning) && exp == old(exp) && commands == old(commands)
                && stoppedCb == old(stoppedCb) && fired == old(fired)
              else if cur == SCAN_TYPE_LE then
                !leScanning && fired == old(fired) && Stopped(old(commands), SCAN_TYPE_LE, ok)
                && if ok then stoppedCb == cb && exp == SCAN_TYPE_NONE
                   else stoppedCb == old(stoppedCb) && exp == old(exp)
              else
                ok && !leScanning && exp == old(exp) && commands == old(commands) && stoppedCb == old(stoppedCb)
                && fired == old(fired) + if cb.Some? then [cb.value] else []
    {
      if !powered {
        return false;
      }
      leScanning := false;
      if cur != SCAN_TYPE_LE {
        if cb.Some? {
          fired := fired + [cb.value];
        }
        return true;
      }
      ok := StopLeScan(cb);
    }

    /** handle_start_discovery_cmd: a running LE scan is stopped, and a dual scan takes its place. */
    method HandleStartDiscoveryCmd() returns (status: Status)
      requires Valid()
      modifies this`exp, this`commands, this`attempts
      ensures Valid() && (old(Told()) ==> Told())
      ensures if !powered then status == NOT_READY && commands == old(commands) && exp == old(exp)
              else if cur == SCAN_TYPE_NONE then
                (status == SUCCESS || status == FAILED) && exp == old(exp)
                && Started(old(commands), SCAN_TYPE_DUAL, status == SUCCESS)
              else if cur == SCAN_TYPE_LE && supported != SCAN_TYPE_LE then
                (status == SUCCESS || status == FAILED) && Stopped(old(commands), SCAN_TYPE_LE, status == SUCCESS)
                && exp == if status == SUCCESS then SCAN_TYPE_DUAL else old(exp)
              else
                status == SUCCESS && commands == old(commands) && exp == old(exp)
    {
      if !powered {
        return NOT_READY;
      }
      if cur == SCAN_TYPE_NONE {
        var ok := StartDiscovery(SCAN_TYPE_DUAL);
        if !ok {
          return FAILED;
        }
      } else if cur == SCAN_TYPE_LE && supported != SCAN_TYPE_LE {
        var ok := StopDiscovery(SCAN_TYPE_LE);
        if !ok {
          return FAILED;
        }
        exp := SCAN_TYPE_DUAL;
      }
      return SUCCESS;
    }

    /** handle_cancel_discovery_cmd: an LE scan that is wanted for itself is left running. */
    method HandleCancelDiscoveryCmd() returns (status: Status)
      requires Valid()
      modifies this`exp, this`commands
      ensures Valid() && (old(Told()) ==> Told())
      ensures if !powered then status == NOT_READY && commands == old(commands) && exp == old(exp)
              else if cur == SCAN_TYPE_LE && supported == SCAN_TYPE_LE && exp == SCAN_TYPE_LE then
                status == BUSY && commands == old(commands) && exp == old(exp)
              else if cur == SCAN_TYPE_LE && supported == SCAN_TYPE_LE then
                (status == SUCCESS || status == FAILED) && Stopped(old(commands), SCAN_TYPE_LE, status == SUCCESS)
                && exp == old(exp)
              else if cur == SCAN_TYPE_DUAL || cur == SCAN_TYPE_BREDR then
                (status == SUCCESS || status == FAILED) && Stopped(old(commands), SCAN_TYPE_DUAL, status == SUCCESS)
                && exp == if status == SUCCESS && old(exp) != SCAN_TYPE_LE then SCAN_TYPE_NONE else old(exp)
              else
                status == SUCCESS && commands == old(commands) && exp == old(exp)
    {
      if !powered {
        return NOT_READY;
      }
      if cur == SCAN_TYPE_LE {
        if supported != SCAN_TYPE_LE {
          return SUCCESS;
        }
        if exp == SCAN_TYPE_LE {
          return BUSY;
        }
        var ok := StopDiscovery(SCAN_TYPE_LE);
        if !ok {
          return FAILED;
        }
      } else if cur == SCAN_TYPE_DUAL || cur == SCAN_TYPE_BREDR {
        var ok := StopDiscovery(SCAN_TYPE_DUAL);
        if !ok {
          return FAILED;
        }
        if exp != SCAN_TYPE_LE {
          exp := SCAN_TYPE_NONE;
        }
      }
      return SUCCESS;
    }

    /** The supported types change (settings_changed). */
    method SettingsChanged(types: ScanType)
      requires Valid()
      modifies this`supported
      ensures Valid() && supported == types
      ensures old(Told()) ==> (Told() <==> Safe(old(supported), types, cur))
    {
      if Told() {
        ChangeKeeps(android, supported, types, cur);
      }
      supported := types;
    }

    method Perform(op: Op)
      requires Valid()
      modifies this
      ensures Valid()
      ensures old(Told()) && (op.Support? ==> Safe(old(supported), op.types, old(cur))) ==> Told()
      ensures op.Support? || supported == old(supported)
    {
      match op
      case Discovering(scan, discovering) => MgmtDiscoveringEvent(scan, discovering);
      case StartCmd => var _ := HandleStartDiscoveryCmd();
      case CancelCmd => var _ := HandleCancelDiscoveryCmd();
      case LeStart => var _ := LeDiscoveryStart();
      case LeStop(cb) => var _ := LeDiscoveryStop(cb);
      case Power(on) => powered := on;
      case Support(types) => SettingsChanged(types);
    }

    /** Every run. Android's events alternate for as long as every change of the supported types is safe when it
        comes; `safe` says whether that was so. */
    method Run(ops: seq<Op>) returns (ghost safe: bool)
      requires Valid()
      modifies this
      ensures Valid()
      ensures old(Told()) && safe ==> Told()
      ensures (forall op <- ops :: !op.Support?) ==> safe
    {
      safe := true;
      for i := 0 to |ops|
        invariant Valid() && (old(Told()) && safe ==> Told())
        invariant (forall k :: 0 <= k < i ==> !ops[k].Support?) ==> safe
      {
        safe := safe && (ops[i].Support? ==> Safe(supported, ops[i].types, cur));
        Perform(ops[i]);
      }
    }

    /** Any change that is not safe can be followed by events after which Android has been told the same thing twice,
        or STOPPED first: the scan ends, and one of all supported types begins. */
    method UnsafeChange(types: ScanType)
      requires Valid() && Told() && !Safe(supported, types, cur)
      modifies this
      ensures Valid() && !Alternating(android)
    {
      ghost var before, was := android, cur;
      SettingsChanged(types);
      MgmtDiscoveringEvent(SCAN_TYPE_NONE, false);
      ghost var stopped := android;
      MgmtDiscoveringEvent(types, true);
      ghost var started := android;
      if types == SCAN_TYPE_NONE {
        MgmtDiscoveringEvent(SCAN_TYPE_NONE, true);
        Repeated(started, STARTED);
      } else if was == types {
        assert before == [] || before[|before| - 1] == STOPPED;
        Repeated(before, STOPPED);
        NeverAgain(stopped, [STARTED]);
      } else {
        Repeated(before, STARTED);
      }
    }

    /** With no supported type Android is told the opposite of what happens. */
    method ScanUnsupported(scans: seq<ScanType>)
      requires Valid() && supported == SCAN_TYPE_NONE && cur == SCAN_TYPE_NONE && android == []
      requires forall i :: 0 <= i < |scans| ==> scans[i] != SCAN_TYPE_NONE
      modifies this
      ensures Valid() && android == Inverted(|scans|)
    {
      for i := 0 to |scans|
        invariant Valid() && supported == SCAN_TYPE_NONE && cur == SCAN_TYPE_NONE && android == Inverted(i)
      {
        MgmtDiscoveringEvent(scans[i], true);
        MgmtDiscoveringEvent(scans[i], false);
        assert android == Inverted(i) + [STOPPED] + [STARTED];
      }
    }
  }
}
