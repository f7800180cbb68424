/** The provisioning manager: access-point portal, station mode, and a serial reset that can strike even
    while a connection attempt is waiting. Everything the outside world decides (Wi-Fi status, serial
    input, portal requests, how long a delay really takes) comes from an arbitrary environment. */
module Provisioning {

  datatype State = Idle | Connecting | Success | Failure

  datatype Command = NoCommand | Reset | Unknown

  /** A request the portal may receive in one turn of the loop. */
  datatype Request = NoRequest | OtherPage | IncompleteSave | Save(ssid: string, password: string)

  type Credentials = (string, string)

  const NONE: Credentials := ("", "")

  /** Answers by the number of the question: is Wi-Fi connected, what did the serial line say, how much
      longer than asked did a delay take. */
  datatype Environment = Environment(connected: nat -> bool, serial: nat -> Command, extra: nat -> nat)

  datatype Config = Config(connectTimeoutMs: nat, reconnectBackoffMs: nat, portalShutdownDelayMs: nat)

  /** A reset command arrives in the questions from..to-1. */
  ghost predicate ResetIn(env: Environment, from: nat, to: nat) {
    exists t :: from <= t < to && env.serial(t) == Reset
  }

  lemma NoReset(env: Environment, t: nat)
    ensures !ResetIn(env, t, t)
  {
  }

  /** The first n answers about the Wi-Fi status, every other one from `from` on, are no. */
  ghost predicate AllNo(env: Environment, from: nat, n: nat) {
    forall k: nat :: k < n ==> !env.connected(from + 2 * k)
  }

  lemma NoneYet(env: Environment, from: nat)
    ensures AllNo(env, from, 0)
  {
  }

  lemma NextNo(env: Environment, from: nat, n: nat)
    requires AllNo(env, from, n) && !env.connected(from + 2 * n)
    ensures AllNo(env, from, n + 1)
  {
  }

  lemma NextReset(env: Environment, from: nat, t: nat)
    requires from <= t
    ensures ResetIn(env, from, t + 1) <==> ResetIn(env, from, t) || env.serial(t) == Reset
  {
  }

  // ---- what one turn of the main loop does -------------------------------------------------

  /** The manager at one moment. */
  datatype Snapshot = Snapshot(stored: Credentials, portal: bool, pending: bool, state: State, ssid: string,
                               shutdownAt: nat, lastReconnect: nat, clock: nat, asked: nat, heard: nat,
                               joined: seq<Credentials>)

  /** The serial line says reset when the turn looks at it. */
  ghost predicate HearsReset(env: Environment, a: Snapshot) {
    env.serial(a.heard) == Reset
  }

  ghost predicate ShutdownDue(env: Environment, a: Snapshot) {
    !HearsReset(env, a) && a.pending && a.clock >= a.shutdownAt
  }

  /** The turn serves the portal; otherwise it watches the station's connection. */
  ghost predicate ServesPortal(env: Environment, a: Snapshot) {
    HearsReset(env, a) || (a.portal && !ShutdownDue(env, a))
  }

  /** The portal without a save: a reset leaves a fresh portal, everything else changes nothing. */
  ghost predicate Quiet(env: Environment, a: Snapshot, b: Snapshot) {
    && b.joined == a.joined && b.heard == a.heard + 1
    && if HearsReset(env, a) then b.stored == NONE && b.portal && !b.pending && b.state == Idle
       else b == a.(clock := b.clock, asked := b.asked, heard := b.heard)
  }

  /** A save: the pair connects by the last answer of the wait, is stored and the end of the portal scheduled,
      or the portal reports a failure and keeps what was stored, unless a reset wiped it. */
  ghost predicate Saved(env: Environment, config: Config, a: Snapshot, pair: Credentials, b: Snapshot, answer: nat) {
    && b.portal && b.ssid == pair.0 && (b.pending <==> env.connected(answer))
    && if b.pending then
         && b.stored == pair && b.state == Success && b.joined == a.joined + [pair]
         && a.clock + config.portalShutdownDelayMs <= b.shutdownAt <= b.clock + config.portalShutdownDelayMs
       else
         && b.state == Failure && b.joined == a.joined
         && b.stored == if ResetIn(env, a.heard, b.heard) then NONE else a.stored
  }

  /** Station mode, `last` being the time of the last attempt: nothing happens while connected or within the
      backoff. Then the stored pair is tried, and the station stays exactly when it connects by the last answer
      of the wait; without a stored pair the portal opens. */
  ghost predicate Watched(env: Environment, config: Config, a: Snapshot, last: nat, b: Snapshot, answer: int) {
    && !b.pending && b.state == (if b.portal then Idle else Success)
    && if env.connected(a.asked) || a.clock - last < config.reconnectBackoffMs then
         && !b.portal && b.stored == a.stored && b.joined == a.joined && b.ssid == a.ssid && b.lastReconnect == last
       else if a.stored.0 == "" then
         && b.portal && b.stored == a.stored && b.joined == a.joined
       else
         && a.asked + 2 <= answer && (b.portal <==> !env.connected(answer))
         && (!b.portal ==> b.ssid == a.stored.0)
         && b.joined == (if b.portal then a.joined else a.joined + [a.stored])
         && b.stored == if ResetIn(env, a.heard, b.heard) then NONE else a.stored
  }

  ghost predicate Turn(env: Environment, config: Config, a: Snapshot, request: Request, b: Snapshot) {
    && b.clock >= a.clock + 10 && b.heard > a.heard && b.asked > a.asked
    && if ServesPortal(env, a) then
         match request
         case Save(ssid, password) => b.asked >= 2 && Saved(env, config, a, (ssid, password), b, b.asked - 2)
         case _ => Quiet(env, a, b)
       else
         Watched(env, config, a, if ShutdownDue(env, a) then a.clock else a.lastReconnect, b, b.asked - 2)
  }

  /** The beginning of a turn: the serial line, and the end of the portal when it is due. */
  ghost predicate Begun(env: Environment, a: Snapshot, m: Snapshot) {
    && m.heard == a.heard + 1 && m.asked == a.asked && m.joined == a.joined && m.clock >= a.clock
    && if HearsReset(env, a) then m.stored == NONE && m.portal && !m.pending && m.state == Idle
       else if ShutdownDue(env, a) then
         m == a.(portal := false, pending := false, state := Success, lastReconnect := a.clock, heard := m.heard)
       else m == a.(heard := m.heard)
  }

  /** The middle of a turn: the portal serves a request, or the station watches its connection. */
  ghost predicate Served(env: Environment, config: Config, m: Snapshot, request: Request, n: Snapshot) {
    && n.heard >= m.heard && n.clock >= m.clock && n.asked >= m.asked
    && if !m.portal then n.asked > 0 && Watched(env, config, m, m.lastReconnect, n, n.asked - 1)
       else match request
         case Save(ssid, password) => n.asked > 0 && Saved(env, config, m, (ssid, password), n, n.asked - 1)
         case _ => n == m
  }

  /** It completes the turn that has begun. */
  lemma TurnEnds(env: Environment, config: Config, a: Snapshot, m: Snapshot, request: Request, n: Snapshot, b: Snapshot)
    requires Begun(env, a, m) && Served(env, config, m, request, n)
    requires b == n.(clock := b.clock, asked := n.asked + 1) && b.clock >= n.clock + 10
    ensures Turn(env, config, a, request, b)
  {
    hide ResetIn;
    LaterReset(env, a.heard, n.heard);
  }

  lemma LaterReset(env: Environment, from: nat, to: nat)
    requires from < to
    ensures ResetIn(env, from, to) <==> env.serial(from) == Reset || ResetIn(env, from + 1, to)
  {
  }

  class ProvisioningManager {
    const config: Config
    const env: Environment
    const boot: Credentials
    var asked: nat   // questions about the Wi-Fi status and delays
    var heard: nat   // looks at the serial line
    var clock: nat
    var stored: Credentials
    var isProvisioningMode: bool
    var pendingPortalShutdown: bool
    var portalShutdownAt: nat
    var lastReconnectAttempt: nat
    var lastProvisionedSsid: string
    var provisioningState: State
    ghost var joined: seq<Credentials>  // every pair for which connectToNetwork returned true

    /** The stored pair is the one from boot, empty, or one that has connected. */
    ghost predicate Sound()
      reads this
    {
      (stored == boot || stored == NONE || stored in joined) && lastReconnectAttempt <= clock
    }

    /** The state of a portal that has just been reset. */
    ghost predicate Wiped()
      reads this`stored, this`isProvisioningMode, this`pendingPortalShutdown, this`provisioningState,
            this`lastProvisionedSsid
    {
      var s := Settings(); s.0 == NONE && s.1 && !s.2 && s.3 == Idle
    }

    /** What a connection attempt leaves alone unless a reset comes in. */
    ghost function Settings(): (Credentials, bool, bool, State, string)
      reads this`stored, this`isProvisioningMode, this`pendingPortalShutdown, this`provisioningState,
            this`lastProvisionedSsid
    {
      (stored, isProvisioningMode, pendingPortalShutdown, provisioningState, lastProvisionedSsid)
    }

    ghost function Now(): Snapshot
      reads this
    {
      Snapshot(stored, isProvisioningMode, pendingPortalShutdown, provisioningState, lastProvisionedSsid,
               portalShutdownAt, lastReconnectAttempt, clock, asked, heard, joined)
    }

    /** What holds whenever control is outside the manager. */
    ghost predicate Valid()
      reads this
    {
      && Sound()
      && provisioningState != Connecting
      && (pendingPortalShutdown ==> isProvisioningMode && provisioningState == Success)
      && (!isProvisioningMode ==> provisioningState == Success)
      && (pendingPortalShutdown || !isProvisioningMode ==>
            joined != [] && lastProvisionedSsid == joined[|joined| - 1].0)
    }

    constructor (config: Config, env: Environment, boot: Credentials)
      ensures Valid() && this.config == config && this.env == env && this.boot == boot
      ensures stored == boot && isProvisioningMode && !pendingPortalShutdown && provisioningState == Idle
      ensures joined == [] && asked == 0 && heard == 0
    {
      this.config, this.env, this.boot := config, env, boot;
      asked, heard, clock, stored := 0, 0, 0, boot;
      isProvisioningMode, pendingPortalShutdown, portalShutdownAt, lastReconnectAttempt := true, false, 0, 0;
      lastProvisionedSsid, provisioningState, joined := "", Idle, [];
    }

    // ---- the outside world -----------------------------------------------------------------

    method WifiConnected() returns (yes: bool)
      requires Sound()
      modifies this`asked
      ensures Sound() && yes == env.connected(old(asked)) && asked == old(asked) + 1
    {
      yes := env.connected(asked);
      asked := asked + 1;
    }

    method Delay(ms: nat)
      requires Sound()
      modifies this`clock, this`asked
      ensures Sound() && clock >= old(clock) + ms && asked == old(asked) + 1
    {
      clock := clock + ms + env.extra(asked);
      asked := asked + 1;
    }

    /** A wait for Wi-Fi: every pass asks for a delay and the status and looks at the serial line once. All answers
        but the last were no; the last is yes, or the time is up, and no pass began after that. */
    ghost predicate Waited(asked0: nat, heard0: nat, clock0: nat, last: int)
      reads this`heard, this`clock
    {
      var n := heard - heard0;
      && 0 <= n && last == asked0 + 2 * n && AllNo(env, asked0, n)
      && (if n == 0 then clock == clock0 else clock > clock0 && 100 * (n - 1) < config.connectTimeoutMs)
      && (env.connected(last) || clock - clock0 >= config.connectTimeoutMs)
    }

    // ---- modes -----------------------------------------------------------------------------

    method InitProvisioning(resetStatus: bool)
      modifies this`isProvisioningMode, this`provisioningState, this`lastProvisionedSsid, this`pendingPortalShutdown
      ensures isProvisioningMode && !pendingPortalShutdown
      ensures provisioningState == if resetStatus then Idle else old(provisioningState)
      ensures lastProvisionedSsid == if resetStatus then "" else old(lastProvisionedSsid)
    {
      isProvisioningMode := true;
      if resetStatus {
        provisioningState := Idle;
        lastProvisionedSsid := "";
      }
      pendingPortalShutdown := false;
    }

    method EnterOperationalMode()
      modifies this`isProvisioningMode, this`lastReconnectAttempt, this`pendingPortalShutdown, this`provisioningState
      ensures !isProvisioningMode && lastReconnectAttempt == clock && !pendingPortalShutdown
              && provisioningState == Success
    {
      isProvisioningMode := false;
      lastReconnectAttempt := clock;
      pendingPortalShutdown := false;
      provisioningState := Success;
    }

    /** One serial command: a reset wipes the credentials and restarts the portal, at any time. */
    method HandleSerialCommands()
      requires Sound()
      modifies this`stored, this`clock, this`heard, this`isProvisioningMode, this`provisioningState,
               this`lastProvisionedSsid, this`pendingPortalShutdown
      ensures Sound() && clock >= old(clock) && heard == old(heard) + 1
      ensures if env.serial(old(heard)) == Reset then
                Wiped()
              else
                Settings() == old(Settings()) && clock == old(clock)
    {
      var command := env.serial(heard);
      heard := heard + 1;
      if command == Reset {
        stored := NONE;
        clock := clock + 500;
        InitProvisioning(true);
      }
    }

    /** Wait until connected or timed out; every pass lets the clock advance, so the wait ends. */
    method WaitForNetwork()
      requires Sound()
      modifies this`stored, this`clock, this`asked, this`heard, this`isProvisioningMode, this`provisioningState,
               this`lastProvisionedSsid, this`pendingPortalShutdown
      ensures Sound() && Waited(old(asked), old(heard), old(clock), asked - 1)
      ensures if ResetIn(env, old(heard), heard) then Wiped() else Settings() == old(Settings())
    {
      hide ResetIn, AllNo, Sound, Settings;
      NoReset(env, heard);
      NoneYet(env, asked);
      var start := clock;
      var connected := WifiConnected();
      while !connected && clock - start < config.connectTimeoutMs
        invariant Sound() && old(heard) <= heard && asked == old(asked) + 2 * (heard - old(heard)) + 1
        invariant clock - start >= 100 * (heard - old(heard)) && connected == env.connected(asked - 1)
        invariant heard == old(heard) ==> clock == start
        invariant heard > old(heard) ==> 100 * (heard - old(heard) - 1) < config.connectTimeoutMs
        invariant AllNo(env, old(asked), heard - old(heard))
        invariant if ResetIn(env, old(heard), heard) then Wiped() else Settings() == old(Settings())
        decreases config.connectTimeoutMs - (clock - start)
      {
        NextNo(env, old(asked), heard - old(heard));
        Delay(100);
        NextReset(env, old(heard), heard);
        HandleSerialCommands();
        connected := WifiConnected();
      }
    }

    /** A connection attempt. Without a reset during the wait the manager's own state is untouched; after one
        it is that of a fresh portal. */
    method ConnectToNetwork(ssid: string, password: string) returns (ok: bool)
      requires Sound()
      modifies this`stored, this`clock, this`asked, this`heard, this`isProvisioningMode, this`provisioningState,
               this`lastProvisionedSsid, this`pendingPortalShutdown, this`joined
      ensures Sound() && Waited(old(asked), old(heard), old(clock), asked - 2) && ok == env.connected(asked - 1)
      ensures joined == if ok then old(joined) + [(ssid, password)] else old(joined)
      ensures if ResetIn(env, old(heard), heard) then Wiped() else Settings() == old(Settings())
    {
      hide ResetIn, Sound, Wiped;
      WaitForNetwork();
      ok := WifiConnected();
      if ok {
        Join((ssid, password));
      }
    }

    /** Remember a pair that has connected. */
    method Join(pair: Credentials)
      requires Sound()
      modifies this`joined
      ensures Sound() && joined == old(joined) + [pair]
    {
      joined := joined + [pair];
    }

    // ---- the callers of a connection attempt -----------------------------------------------

    /** Boot and reconnect: operational when connected, otherwise back to the portal. The device ends up
        operational without stored credentials exactly when it connects after a reset during the wait. */
    method TryStored(ssid: string, password: string)
      requires Valid() && stored == (ssid, password) && ssid != ""
      modifies this`stored, this`clock, this`asked, this`heard, this`isProvisioningMode, this`provisioningState,
               this`lastProvisionedSsid, this`pendingPortalShutdown, this`joined, this`lastReconnectAttempt
      ensures Valid() && Waited(old(asked), old(heard), old(clock), asked - 2)
      ensures isProvisioningMode <==> !env.connected(asked - 1)
      ensures !pendingPortalShutdown && provisioningState == if isProvisioningMode then Idle else Success
      ensures joined == if isProvisioningMode then old(joined) else old(joined) + [(ssid, password)]
      ensures !isProvisioningMode ==> lastProvisionedSsid == ssid
      ensures stored == if ResetIn(env, old(heard), heard) then NONE else old(stored)
      ensures !isProvisioningMode ==> (stored.0 == "" <==> ResetIn(env, old(heard), heard))
    {
      var ok := ConnectToNetwork(ssid, password);
      if ok {
        lastProvisionedSsid := ssid;
        EnterOperationalMode();
      } else {
        InitProvisioning(true);
      }
    }

    method Begin()
      requires Valid() && isProvisioningMode && joined == [] && provisioningState == Idle
      modifies this
      ensures Valid() && old(heard) <= heard
      ensures old(stored).0 != "" ==>
                && Waited(old(asked), old(heard), old(clock), asked - 2)
                && (isProvisioningMode <==> !env.connected(asked - 1))
      ensures stored == if ResetIn(env, old(heard), heard) then NONE else old(stored)
      ensures !isProvisioningMode ==> joined == [old(stored)] && (stored.0 == "" <==> ResetIn(env, old(heard), heard))
    {
      if stored.0 != "" {
        TryStored(stored.0, stored.1);
      } else {
        InitProvisioning(true);
      }
    }

    /** The save handler. Afterwards nothing is Connecting, whatever happened during the wait, and the new
        pair is stored exactly when it connected. */
    method HandleSave(ssid: string, password: string)
      requires Valid() && isProvisioningMode
      modifies this
      ensures Valid() && clock >= old(clock) && old(heard) <= heard && old(asked) < asked
      ensures Saved(env, config, old(Now()), (ssid, password), Now(), asked - 1)
    {
      hide ResetIn;
      provisioningState := Connecting;
      var connected := ConnectToNetwork(ssid, password);
      ConcludeSave(ssid, password, connected);
    }

    /** What follows the attempt: store the pair and schedule the end of the portal, or reopen it. */
    method ConcludeSave(ssid: string, password: string, connected: bool)
      requires Sound() && (connected ==> isProvisioningMode && joined != [] && joined[|joined| - 1] == (ssid, password))
      modifies this`stored, this`isProvisioningMode, this`provisioningState, this`lastProvisionedSsid,
               this`pendingPortalShutdown, this`portalShutdownAt
      ensures Valid() && isProvisioningMode && pendingPortalShutdown == connected
      ensures provisioningState == if connected then Success else Failure
      ensures stored == if connected then (ssid, password) else old(stored)
      ensures lastProvisionedSsid == ssid
      ensures connected ==> portalShutdownAt == clock + config.portalShutdownDelayMs
    {
      if connected {
        stored := (ssid, password);
        provisioningState := Success;
        lastProvisionedSsid := ssid;
      } else {
        provisioningState := Failure;
        lastProvisionedSsid := ssid;
      }
      if connected {
        pendingPortalShutdown := true;
        portalShutdownAt := clock + config.portalShutdownDelayMs;
      } else {
        InitProvisioning(false);
      }
    }

    /** Station mode: a lost connection is retried after the backoff, or given up for the portal. */
    method Reconnect()
      requires Valid() && !isProvisioningMode
      modifies this
      ensures Valid() && clock >= old(clock) && old(heard) <= heard && old(asked) < asked
      ensures Watched(env, config, old(Now()), old(lastReconnectAttempt), Now(), asked - 1)
    {
      hide ResetIn;
      NoReset(env, heard);
      var connected := WifiConnected();
      if !connected && clock - lastReconnectAttempt >= config.reconnectBackoffMs {
        lastReconnectAttempt := clock;
        if stored.0 != "" {
          TryStored(stored.0, stored.1);
        } else {
          InitProvisioning(true);
        }
      }
    }

    /** One turn of the main loop, for every environment and every request. */
    method Loop(request: Request)
      requires Valid()
      modifies this
      ensures Valid() && Turn(env, config, old(Now()), request, Now())
    {
      hide Turn, Begun, Served;
      ghost var a := Now();
      BeginTurn();
      ghost var m := Now();
      Serve(request);
      ghost var n := Now();
      Delay(10);
      TurnEnds(env, config, a, m, request, n, Now());
    }

    /** The portal's or the station's part of the turn. */
    method Serve(request: Request)
      requires Valid()
      modifies this
      ensures Valid() && Served(env, config, old(Now()), request, Now())
    {
      hide Saved, Watched;
      if isProvisioningMode {
        match request {
          case Save(ssid, password) => HandleSave(ssid, password);
          case _ =>
        }
      } else {
        Reconnect();
      }
    }

    /** The beginning: a serial command, and the end of the portal when its time has come. */
    method BeginTurn()
      requires Valid()
      modifies this
      ensures Valid() && Begun(env, old(Now()), Now())
    {
      HandleSerialCommands();
      if pendingPortalShutdown && clock >= portalShutdownAt {
        EnterOperationalMode();
      }
    }
  }

  // ---- whole runs --------------------------------------------------------------------------

  /** The manager before and after each turn of a run. */
  ghost predicate Execution(env: Environment, config: Config, trace: seq<Snapshot>, requests: seq<Request>) {
    && |trace| == |requests| + 1
    && forall i :: 0 <= i < |requests| ==> Turn(env, config, trace[i], requests[i], trace[i + 1])
  }

  ghost predicate NoSave(requests: seq<Request>) {
    forall i :: 0 <= i < |requests| ==> !requests[i].Save?
  }

  ghost predicate Fresh(a: Snapshot) {
    a.stored == NONE && a.portal && !a.pending && a.state == Idle
  }

  /** After a reset heard by the main loop the device stays a fresh portal without credentials, to the end of the
      run, unless something is saved. */
  lemma {:induction false} ResetSticks(env: Environment, config: Config, trace: seq<Snapshot>, requests: seq<Request>,
                                       k: int, j: int)
    requires Execution(env, config, trace, requests) && 0 <= k < j <= |requests| && HearsReset(env, trace[k])
    requires forall i :: k <= i < j ==> !requests[i].Save?
    ensures Fresh(trace[j])
    decreases j
  {
    assert Turn(env, config, trace[j - 1], requests[j - 1], trace[j]);
    if k < j - 1 {
      ResetSticks(env, config, trace, requests, k, j - 1);
    }
  }

  /** The portal still waits for its end, as scheduled. */
  ghost predicate Scheduled(a: Snapshot, b: Snapshot) {
    b.portal && b.pending && b.shutdownAt == a.shutdownAt && b.stored == a.stored && b.joined == a.joined
  }

  /** A scheduled end of the portal comes: without a reset or another save, one of the next delay / 10 + 1 turns
      finds it due, and leaves the device in station mode with the pair that was saved. Only without a backoff may
      that turn try to reconnect at once. */
  lemma {:induction false} PortalEnds(env: Environment, config: Config, trace: seq<Snapshot>, requests: seq<Request>)
    returns (k: nat)
    requires Execution(env, config, trace, requests) && trace[0].portal && trace[0].pending
    requires trace[0].clock + 10 * (|requests| - 1) >= trace[0].shutdownAt && |requests| > 0
    requires forall i :: 0 <= i < |requests| ==> !requests[i].Save? && !HearsReset(env, trace[i])
    ensures k < |requests| && Scheduled(trace[0], trace[k]) && ShutdownDue(env, trace[k])
    ensures config.reconnectBackoffMs > 0 ==>
              !trace[k + 1].portal && trace[k + 1].state == Success && trace[k + 1].stored == trace[0].stored
  {
    k := 0;
    while !ShutdownDue(env, trace[k])
      invariant k < |requests| && Scheduled(trace[0], trace[k]) && trace[k].clock >= trace[0].clock + 10 * k
      decreases |requests| - k
    {
      assert Turn(env, config, trace[k], requests[k], trace[k + 1]);
      k := k + 1;
    }
    assert Turn(env, config, trace[k], requests[k], trace[k + 1]);
  }

  /** Credentials are only lost to a reset: in a run that hears none, not even while it waits for Wi-Fi, what is
      stored at the end was stored at its beginning or has connected since. */
  lemma {:induction false} KeptWithoutReset(env: Environment, config: Config, trace: seq<Snapshot>,
                                            requests: seq<Request>, n: nat)
    requires Execution(env, config, trace, requests) && n <= |requests|
    requires !ResetIn(env, trace[0].heard, trace[n].heard)
    ensures trace[0].heard <= trace[n].heard && trace[0].joined <= trace[n].joined
    ensures trace[n].stored == trace[0].stored || trace[n].stored in trace[n].joined[|trace[0].joined|..]
  {
    if n > 0 {
      var a, b := trace[n - 1], trace[n];
      assert Turn(env, config, a, requests[n - 1], b);
      HeardGrows(env, config, trace, requests, n - 1);
      KeptWithoutReset(env, config, trace, requests, n - 1);
      assert !HearsReset(env, a) && !ResetIn(env, a.heard, b.heard);
      var since := |trace[0].joined|;
      if b.stored != a.stored {
        assert b.joined == a.joined + [b.stored] && b.joined[since..][|a.joined| - since] == b.stored;
      } else if a.stored in a.joined[since..] {
        var i :| since <= i < |a.joined| && a.joined[i] == a.stored;
        assert b.joined[since..][i - since] == b.stored;
      }
    }
  }

  lemma {:induction false} HeardGrows(env: Environment, config: Config, trace: seq<Snapshot>, requests: seq<Request>,
                                      n: nat)
    requires Execution(env, config, trace, requests) && n <= |requests|
    ensures trace[0].heard <= trace[n].heard
  {
    if n > 0 {
      assert Turn(env, config, trace[n - 1], requests[n - 1], trace[n]);
      HeardGrows(env, config, trace, requests, n - 1);
    }
  }

  /** Over every run: however many turns, whatever the environment and the requests. */
  method Run(config: Config, env: Environment, boot: Credentials, requests: seq<Request>)
    returns (m: ProvisioningManager, ghost trace: seq<Snapshot>)
    ensures fresh(m) && m.Valid() && m.env == env && m.boot == boot
    ensures m.stored == boot || m.stored == NONE || m.stored in m.joined
    ensures m.pendingPortalShutdown ==> m.isProvisioningMode && m.provisioningState == Success
    ensures !m.isProvisioningMode ==>
              m.provisioningState == Success && m.lastProvisionedSsid == m.joined[|m.joined| - 1].0
    ensures Execution(env, config, trace, requests) && trace[|requests|] == m.Now()
    ensures forall k :: 0 <= k < |requests| && HearsReset(env, trace[k]) && NoSave(requests[k..]) ==>
              m.isProvisioningMode && m.stored == NONE && !m.pendingPortalShutdown && m.provisioningState == Idle
  {
    hide Turn, HearsReset;
    m := new ProvisioningManager(config, env, boot);
    m.Begin();
    trace := [m.Now()];
    for i := 0 to |requests|
      invariant m.Valid() && m.env == env && m.boot == boot && m.config == config
      invariant |trace| == i + 1 && trace[i] == m.Now()
      invariant forall j :: 0 <= j < i ==> Turn(env, config, trace[j], requests[j], trace[j + 1])
    {
      m.Loop(requests[i]);
      trace := trace + [m.Now()];
    }
    forall k | 0 <= k < |requests| && HearsReset(env, trace[k]) && NoSave(requests[k..])
      ensures Fresh(trace[|requests|])
    {
      forall i | k <= i < |requests| ensures !requests[i].Save? {
        assert requests[i] == requests[k..][i - k];
      }
      ResetSticks(env, config, trace, requests, k, |requests|);
    }
  }

  /** A reset during the wait of a boot that then connects: station mode with no stored credentials, although
      the reset promises to return to the portal. */
  method OperationalAfterReset(boot: Credentials) returns (m: ProvisioningManager)
    requires boot.0 != ""
    ensures fresh(m) && m.Valid() && !m.isProvisioningMode && m.stored == NONE
    ensures m.env.serial(0) == Reset
  {
    var env := Environment(n => n != 0, n => if n == 0 then Reset else NoCommand, n => 0);
    m := new ProvisioningManager(Config(1000, 1000, 1000), env, boot);
    m.Begin();
    assert !env.connected(0) && m.heard > 0;
    assert env.serial(0) == Reset;
  }
}
