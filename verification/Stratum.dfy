/** Autodetection of a pool's stratum mode: the connection's mode and flags under the events of the stratum
    client (EthStratumClient.cpp, PoolURI.h, PoolClient.h). */
module Stratum {
  const UNTESTED := 999

  // m_stratumMode, m_stratumModeConfirmed, m_unrecoverable and m_responds of a URI.
  datatype Conn = Conn(mode: nat, confirmed: bool, unrecoverable: bool, responds: bool)

  const FRESH := Conn(UNTESTED, false, false, false)

  datatype Event =
    | SetConnection                         // the pool manager selects the connection
    | Connected(tlsFails: bool)             // a socket is connected; the handshake of a secure one may fail
    | Response(isError: bool, fits: bool)   // the answer to the login request, and whether it fits the mode
    | Finalize                              // the connection has been closed
    | Trash                                 // the pool refuses for another reason

  // The finalizes that go on with the autodetection.
  predicate Retries(c: Conn, e: Event) { e == Finalize && !c.unrecoverable && !c.confirmed && c.responds }

  function Apply(version: nat, c: Conn, e: Event): Conn {
    match e
    case SetConnection => c.(responds := false)
    case Connected(tlsFails) =>
      if tlsFails then c.(responds := true, unrecoverable := true)
      else if version < UNTESTED then c.(responds := true, mode := version, confirmed := true)
      else if !c.confirmed && c.mode == UNTESTED then c.(responds := true, mode := 3)
      else c.(responds := true)
    case Response(isError, fits) =>
      if (isError && !c.confirmed) || c.mode > 3 then c
      else if (if c.mode >= 2 then fits else !isError) then c.(confirmed := true)
      else if c.confirmed then c.(unrecoverable := true)
      else c
    case Finalize =>
      if !Retries(c, e) then c
      else if c.mode > 0 then c.(mode := c.mode - 1)
      else c.(unrecoverable := true)
    case Trash => c.(unrecoverable := true)
  }

  function Run(version: nat, events: seq<Event>): Conn {
    if |events| == 0 then FRESH else Apply(version, Run(version, events[..|events| - 1]), events[|events| - 1])
  }

  // How many finalizes of a run went on with the autodetection.
  function Tries(version: nat, events: seq<Event>): nat {
    if |events| == 0 then 0
    else
      var before := events[..|events| - 1];
      Tries(version, before) + (if Retries(Run(version, before), events[|events| - 1]) then 1 else 0)
  }

  // The tries that are left.
  function Left(c: Conn): nat {
    if c.confirmed || c.unrecoverable then 0 else if c.mode <= 3 then c.mode + 1 else 4
  }

  ghost predicate Inv(version: nat, c: Conn) {
    && (c.responds && !c.confirmed && !c.unrecoverable ==> c.mode <= 3)
    && (c.mode <= 3 || c.mode == UNTESTED || c.mode == version)
    && (version < UNTESTED ==> c.mode == if c.confirmed then version else UNTESTED)
  }

  lemma ApplyKeeps(version: nat, c: Conn, e: Event)
    requires Inv(version, c) && version <= UNTESTED
    ensures Inv(version, Apply(version, c, e))
    ensures Left(Apply(version, c, e)) + (if Retries(c, e) then 1 else 0) <= Left(c)
    ensures c.confirmed ==> Apply(version, c, e).confirmed && Apply(version, c, e).mode == c.mode
    ensures c.unrecoverable ==> Apply(version, c, e).unrecoverable
  {
  }

  /** Each autodetecting finalize strictly lowers the mode, or gives the connection up at mode 0. */
  lemma FinalizeLowers(version: nat, events: seq<Event>)
    requires version <= UNTESTED && Retries(Run(version, events), Finalize)
    ensures var c, d := Run(version, events), Apply(version, Run(version, events), Finalize);
      version == UNTESTED && c.mode <= 3 && (d.mode < c.mode || (c.mode == 0 && d.unrecoverable))
  {
    RunKeeps(version, events);
  }

  lemma {:induction false} RunKeeps(version: nat, events: seq<Event>)
    requires version <= UNTESTED
    ensures Inv(version, Run(version, events))
    ensures Left(Run(version, events)) + Tries(version, events) <= 4
  {
    if |events| > 0 {
      RunKeeps(version, events[..|events| - 1]);
      ApplyKeeps(version, Run(version, events[..|events| - 1]), events[|events| - 1]);
    }
  }

  /** In every run there are at most four autodetecting finalizes, and after four the connection is confirmed
      or given up. */
  lemma AutodetectionEnds(version: nat, events: seq<Event>)
    requires version <= UNTESTED
    ensures Tries(version, events) <= 4
    ensures Tries(version, events) == 4 ==> Run(version, events).confirmed || Run(version, events).unrecoverable
  {
    RunKeeps(version, events);
  }

  /** A mode becomes confirmed exactly when the connection's scheme names it or the pool answers without an error and
      fits the mode under test; a connection is given up exactly by a handshake that fails, a refusal, an unfit
      answer to a confirmed mode, or the end of the autodetection. */
  lemma ConfirmationIsEarned(version: nat, events: seq<Event>, e: Event)
    requires version <= UNTESTED
    ensures var c, d := Run(version, events), Apply(version, Run(version, events), e);
      && (!c.confirmed ==>
            (d.confirmed <==>
              || (e == Connected(false) && version < UNTESTED)
              || (e.Response? && !e.isError && c.mode <= 3 && (c.mode >= 2 ==> e.fits))))
      && (!c.confirmed && d.confirmed ==> d.mode == if e.Response? then c.mode else version)
      && (!c.unrecoverable ==>
            (d.unrecoverable <==>
              || e == Connected(true) || e == Trash
              || (e.Response? && c.confirmed && c.mode <= 3 && (if c.mode >= 2 then !e.fits else e.isError))
              || (Retries(c, e) && c.mode == 0)))
      && (Retries(c, e) ==> version == UNTESTED)
  {
    RunKeeps(version, events);
  }

  // The mode after so many tries: the highest less one for each, and none left after that of mode 0.
  predicate InTurn(c: Conn, tries: nat) {
    (c.mode == UNTESTED && tries == 0) || c.mode + tries == 3 || (c.mode == 0 && tries == 4 && c.unrecoverable)
  }

  lemma TurnKept(c: Conn, tries: nat, e: Event)
    requires Inv(UNTESTED, c) && InTurn(c, tries)
    ensures InTurn(Apply(UNTESTED, c, e), tries + if Retries(c, e) then 1 else 0)
  {
  }

  /** The autodetection goes through the four modes one after the other from the highest: the mode under test is 3 less
      the tries so far, and the connection is given up after that of mode 0. */
  lemma {:induction false} ModesInTurn(events: seq<Event>)
    ensures InTurn(Run(UNTESTED, events), Tries(UNTESTED, events))
  {
    if |events| > 0 {
      var before := events[..|events| - 1];
      ModesInTurn(before);
      RunKeeps(UNTESTED, before);
      hide Apply, InTurn, Retries, Inv;
      TurnKept(Run(UNTESTED, before), Tries(UNTESTED, before), events[|events| - 1]);
    }
  }

  /** A confirmed mode never changes, and a connection given up stays so. */
  lemma {:induction false} ConfirmedStays(version: nat, events: seq<Event>, more: seq<Event>)
    requires version <= UNTESTED
    ensures var c, d := Run(version, events), Run(version, events + more);
      && (c.confirmed ==> d.confirmed && d.mode == c.mode) && (c.unrecoverable ==> d.unrecoverable)
  {
    if |more| == 0 {
      assert events + more == events;
    } else {
      var init := more[..|more| - 1];
      ConfirmedStays(version, events, init);
      assert (events + more)[..|events + more| - 1] == events + init;
      RunKeeps(version, events + init);
      ApplyKeeps(version, Run(version, events + init), more[|more| - 1]);
    }
  }

  /** The connection and the handlers that update it. Every handler keeps the invariant, never gives back a try,
      leaves a confirmed mode alone and never takes back that a connection was given up. */
  class Connection {
    const version: nat
    var mode: nat
    var confirmed: bool
    var unrecoverable: bool
    var responds: bool

    function View(): Conn
      reads this
    {
      Conn(mode, confirmed, unrecoverable, responds)
    }

    ghost predicate Valid()
      reads this
    {
      version <= UNTESTED && Inv(version, View())
    }

    twostate predicate Settled()
      reads this
    {
      && Valid() && Left(View()) <= old(Left(View()))
      && (old(confirmed) ==> confirmed && mode == old(mode))
      && (old(unrecoverable) ==> unrecoverable)
    }

    constructor (version: nat)
      requires version <= UNTESTED
      ensures this.version == version && View() == FRESH && Valid()
    {
      this.version := version;
      mode, confirmed, unrecoverable, responds := 999, false, false, false;
    }

    // Afterwards the connection is being tested in one of the four modes, has its mode confirmed or is given up.
    method OnConnected(tlsFails: bool)
      requires Valid()
      modifies this
      ensures Settled() && responds
      ensures mode <= 3 || confirmed || unrecoverable
      ensures View() == Apply(version, old(View()), Connected(tlsFails))
    {
      responds := true;
      if tlsFails {
        unrecoverable := true;
        return;
      }
      if version < 999 {
        mode, confirmed := version, true;
      } else {
        if !confirmed && mode == 999 {
          mode, confirmed := 3, false;
        }
      }
    }

    // An answer never moves the mode. It confirms only a mode under test, and never on an error.
    method OnResponse(isError: bool, fits: bool)
      requires Valid()
      modifies this`confirmed, this`unrecoverable
      ensures Settled()
      ensures confirmed && !old(confirmed) ==> !isError && mode <= 3
      ensures unrecoverable && !old(unrecoverable) ==> old(confirmed)
      ensures View() == Apply(version, old(View()), Response(isError, fits))
    {
      if isError && !confirmed {
        return;
      }
      if mode > 3 {
        return;
      }
      var success := if mode == 3 || mode == 2 then fits else !isError;
      if success {
        confirmed := true;
      } else if confirmed {
        unrecoverable := true;
      }
    }

    // Connecting anew spends a try; a connection that answered and is not tried again is confirmed or given up.
    method OnFinalize() returns (again: bool)
      requires Valid()
      modifies this`mode, this`unrecoverable
      ensures Settled()
      ensures again <==> mode < old(mode)
      ensures again ==> 0 < Left(View()) < old(Left(View())) && version == UNTESTED && old(mode) <= 3
      ensures !again && responds ==> confirmed || unrecoverable
      ensures View() == Apply(version, old(View()), Finalize)
    {
      again := false;
      if !unrecoverable {
        if !confirmed && responds {
          if mode > 0 {
            mode := mode - 1;
            again := true;
          } else {
            unrecoverable := true;
          }
        }
      }
    }

    // SetConnection and the refusals that trash the connection.
    method OnSelected()
      requires Valid()
      modifies this`responds
      ensures Settled() && View() == Apply(version, old(View()), SetConnection)
    {
      responds := false;
    }

    method OnRefused()
      requires Valid()
      modifies this`unrecoverable
      ensures Settled() && View() == Apply(version, old(View()), Trash)
    {
      unrecoverable := true;
    }

    /** The handlers under any sequence of events: the state is the run's, the client connects anew on its own at
        most three times, and a connection that spent its tries is confirmed or given up. */
    method Serve(events: seq<Event>) returns (again: nat)
      requires Valid() && View() == FRESH
      modifies this
      ensures Valid() && View() == Run(version, events)
      ensures again <= 3 && again + Left(View()) <= 4
    {
      again := 0;
      for i := 0 to |events|
        invariant Valid() && View() == Run(version, events[..i])
        invariant again <= 3 && again + Left(View()) <= 4
      {
        assert events[..i + 1][..i] == events[..i];
        match events[i]
        case SetConnection => OnSelected();
        case Connected(tlsFails) => OnConnected(tlsFails);
        case Response(isError, fits) => OnResponse(isError, fits);
        case Trash => OnRefused();
        case Finalize =>
          var more := OnFinalize();
          if more {
            again := again + 1;
          }
      }
      assert events[..|events|] == events;
    }
  }
}
