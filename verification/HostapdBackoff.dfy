/**
 The loop that keeps hostapd running: restart with exponential backoff, reset
 after a stable run. Durations are in nanoseconds, as in the program.
 */
module HostapdBackoff {

  const SECOND := 1_000_000_000
  const INITIAL_BACKOFF := 1 * SECOND
  const MAX_BACKOFF := 30 * SECOND
  const STABLE_RUN_TIME := 10 * SECOND

  /**
   What one turn of the loop meets: how long `Wait` took (next to nothing after
   a failed launch), whether Stop came during the run or the pause, how much
   later than asked the pause ended, and whether the launch worked. `seen` is
   what hostapd's output says of clients up to the crash, `drained` what is left
   of it to be read after the client list was cleared.
   */
  datatype Round = Round(
    run: nat, stopInRun: bool, late: nat, stopInPause: bool, launched: bool,
    seen: map<string, bool>, drained: map<string, bool>)

  /** `restarts` counts attempts to launch; `now` is the time since the loop started. */
  datatype State = State(backoff: nat, now: nat, restarts: nat, stopped: bool)

  const START := State(INITIAL_BACKOFF, 0, 0, false)

  function Pause(s: State, r: Round): nat {
    if r.run >= STABLE_RUN_TIME then INITIAL_BACKOFF else s.backoff
  }

  function Doubled(backoff: nat): nat {
    if backoff * 2 > MAX_BACKOFF then MAX_BACKOFF else backoff * 2
  }

  function Next(s: State, r: Round): State {
    if s.stopped then s
    else if r.stopInRun then s.(now := s.now + r.run, stopped := true)
    else if r.stopInPause then s.(backoff := Pause(s, r), now := s.now + r.run, stopped := true)
    else State(Doubled(Pause(s, r)), s.now + r.run + Pause(s, r) + r.late, s.restarts + 1, false)
  }

  function After(rounds: seq<Round>): State {
    if rounds == [] then START else Next(After(rounds[..|rounds| - 1]), rounds[|rounds| - 1])
  }

  /** The client list: forgotten at each crash, but for output still to be read. */
  function ClientsAfter(rounds: seq<Round>, initial: map<string, bool>): map<string, bool> {
    if rounds == [] then initial
    else
      var front, r := rounds[..|rounds| - 1], rounds[|rounds| - 1];
      if After(front).stopped then ClientsAfter(front, initial)
      else if r.stopInRun then ClientsAfter(front, initial) + r.seen
      else r.drained
  }

  lemma ClientsOneMore(rounds: seq<Round>, r: Round, initial: map<string, bool>)
    ensures ClientsAfter(rounds + [r], initial) ==
            if After(rounds).stopped then ClientsAfter(rounds, initial)
            else if r.stopInRun then ClientsAfter(rounds, initial) + r.seen
            else r.drained
  {
    assert (rounds + [r])[..|rounds + [r]| - 1] == rounds;
  }

  /** Round k is a crash the loop gets to. */
  predicate CrashAt(rounds: seq<Round>, k: nat) {
    k < |rounds| && !After(rounds[..k]).stopped && !rounds[k].stopInRun
  }

  /** Crash k is the last one: after it at most the run in which Stop comes. */
  ghost predicate LastCrash(rounds: seq<Round>, k: nat) {
    CrashAt(rounds, k) && forall j :: k < j < |rounds| ==> !CrashAt(rounds, j)
  }

  /**
   Of all clients reported before the last crash none is listed in the end:
   the list is what was still read after that crash, and what the run after it
   reported if Stop came in it.
   */
  lemma {:induction false} CrashForgetsClients(rounds: seq<Round>, k: nat, initial: map<string, bool>)
    requires LastCrash(rounds, k)
    ensures ClientsAfter(rounds, initial) ==
            if k + 1 < |rounds| && !rounds[k].stopInPause then rounds[k].drained + rounds[k + 1].seen
            else rounds[k].drained
    decreases |rounds|
  {
    var n := |rounds| - 1;
    var front := rounds[..n];
    assert rounds == front + [rounds[n]];
    ClientsOneMore(front, rounds[n], initial);
    if k < n {
      assert forall j :: 0 <= j <= n ==> front[..j] == rounds[..j];
      assert forall j :: k < j < n ==> (CrashAt(front, j) <==> CrashAt(rounds, j));
      assert LastCrash(front, k);
      CrashForgetsClients(front, k, initial);
      StopsAfter(rounds, k);
      assert !CrashAt(rounds, n) && rounds[..n] == front;
    } else {
      assert rounds[..k] == front;
    }
  }

  /** Whether the loop goes on after a crash, and that it is over after a run in which Stop comes. */
  lemma StopsAfter(rounds: seq<Round>, k: nat)
    requires LastCrash(rounds, k)
    ensures forall j :: k < j <= |rounds| ==> (After(rounds[..j]).stopped <==> rounds[k].stopInPause || j > k + 1)
  {
    forall j | k < j <= |rounds|
      ensures After(rounds[..j]).stopped <==> rounds[k].stopInPause || j > k + 1
    {
      StopsBy(rounds, k, j);
    }
  }

  lemma {:induction false} StopsBy(rounds: seq<Round>, k: nat, j: nat)
    requires LastCrash(rounds, k) && k < j <= |rounds|
    ensures After(rounds[..j]).stopped <==> rounds[k].stopInPause || j > k + 1
    decreases j
  {
    assert rounds[..j][..j - 1] == rounds[..j - 1] && rounds[..j][j - 1] == rounds[j - 1];
    if j > k + 1 {
      StopsBy(rounds, k, j - 1);
      assert !CrashAt(rounds, j - 1);
    }
  }

  /** The access point, as far as the loop changes it. */
  class AccessPoint {
    var clients: map<string, bool>
    var running: bool

    /** `supervise`, driven by the given rounds; the last launch decides whether hostapd runs. */
    method Supervise(rounds: seq<Round>) returns (backoff: nat, now: nat, restarts: nat, stopped: bool)
      modifies this
      ensures State(backoff, now, restarts, stopped) == After(rounds)
      ensures clients == ClientsAfter(rounds, old(clients))
      ensures running == if rounds == [] then old(running) else !stopped && rounds[|rounds| - 1].launched
    {
      backoff, now, restarts, stopped := INITIAL_BACKOFF, 0, 0, false;
      var i := 0;
      while i < |rounds| && !stopped
        invariant 0 <= i <= |rounds|
        invariant State(backoff, now, restarts, stopped) == After(rounds[..i])
        invariant clients == ClientsAfter(rounds[..i], old(clients))
        invariant running == if i == 0 then old(running) else !stopped && rounds[i - 1].launched
      {
        var r := rounds[i];
        assert rounds[..i + 1][..i] == rounds[..i];
        i := i + 1;
        now := now + r.run;
        clients := clients + r.seen;
        running := false;
        if r.stopInRun {
          stopped := true;
          break;
        }
        if r.run >= STABLE_RUN_TIME {
          backoff := INITIAL_BACKOFF;
        }
        clients := map[] + r.drained;
        if r.stopInPause {
          stopped := true;
          break;
        }
        now := now + backoff + r.late;
        backoff := backoff * 2;
        if backoff > MAX_BACKOFF {
          backoff := MAX_BACKOFF;
        }
        restarts := restarts + 1;
        running := r.launched;
      }
      StoppedStays(rounds, i, old(clients));
    }
  }

  /** Nothing happens after Stop. */
  lemma {:induction false} StoppedStays(rounds: seq<Round>, i: nat, initial: map<string, bool>)
    requires i <= |rounds| && (i < |rounds| ==> After(rounds[..i]).stopped)
    ensures After(rounds) == After(rounds[..i]) && ClientsAfter(rounds, initial) == ClientsAfter(rounds[..i], initial)
    decreases |rounds|
  {
    if i == |rounds| {
      assert rounds[..i] == rounds;
    } else {
      var front := rounds[..|rounds| - 1];
      assert front[..i] == rounds[..i];
      StoppedStays(front, i, initial);
    }
  }

  /** Credit saved up by a backoff, in thirds of a second: what the next cheap restarts may overdraw. */
  function Credit(backoff: nat): nat {
    if backoff == 1 * SECOND then 0
    else if backoff == 2 * SECOND then 14
    else if backoff == 4 * SECOND then 25
    else 30
  }

  ghost predicate Inv(s: State) {
    && s.backoff in {1 * SECOND, 2 * SECOND, 4 * SECOND, 8 * SECOND, 16 * SECOND, 30 * SECOND}
    && 3 * s.now >= (17 * s.restarts - Credit(s.backoff)) * SECOND
  }

  lemma NextKeepsInv(s: State, r: Round)
    requires Inv(s)
    ensures Inv(Next(s, r))
  {
  }

  lemma {:induction false} AfterKeepsInv(rounds: seq<Round>)
    ensures Inv(After(rounds))
  {
    if rounds != [] {
      AfterKeepsInv(rounds[..|rounds| - 1]);
      NextKeepsInv(After(rounds[..|rounds| - 1]), rounds[|rounds| - 1]);
    }
  }

  /**
   For every pattern of crashes, stable runs, failed launches and stops: n
   restarts take at least (17n - 30)/3 seconds, and the backoff is always one
   of six values.
   */
  lemma RestartsTakeTime(rounds: seq<Round>)
    ensures 3 * After(rounds).now >= (17 * After(rounds).restarts - 30) * SECOND
    ensures After(rounds).backoff in {1 * SECOND, 2 * SECOND, 4 * SECOND, 8 * SECOND, 16 * SECOND, 30 * SECOND}
  {
    AfterKeepsInv(rounds);
  }

  function Crash(run: nat): Round {
    Round(run, false, 0, false, true, map[], map[])
  }

  lemma AfterOneMore(rounds: seq<Round>, r: Round)
    ensures After(rounds + [r]) == Next(After(rounds), r)
  {
  }

  /** What each restart costs: the run, the pause, one second after a run of ten, and whatever the pause is late. */
  lemma RestartTakes(rounds: seq<Round>, r: Round)
    requires !After(rounds).stopped && !r.stopInRun && !r.stopInPause
    ensures var s, s' := After(rounds), After(rounds + [r]);
            var pause := if r.run >= 10 * SECOND then 1 * SECOND else s.backoff;
            && s'.restarts == s.restarts + 1 && s'.now == s.now + r.run + pause + r.late
            && s'.backoff == if 2 * pause > 30 * SECOND then 30 * SECOND else 2 * pause
  {
    AfterOneMore(rounds, r);
  }

  /** The bound is met again and again: a stable run of ten seconds, then two immediate crashes, for ever. */
  lemma {:induction false} BoundIsTight(k: nat) returns (rounds: seq<Round>)
    requires k >= 1
    ensures After(rounds).restarts == 3 * k
    ensures 3 * After(rounds).now == (17 * After(rounds).restarts - 30) * SECOND
    ensures !After(rounds).stopped && After(rounds).backoff == 8 * SECOND
  {
    rounds := [];
    var first := 0;
    if k > 1 {
      rounds := BoundIsTight(k - 1);
      first := STABLE_RUN_TIME;
    }
    AfterOneMore(rounds, Crash(first));
    rounds := rounds + [Crash(first)];
    AfterOneMore(rounds, Crash(0));
    rounds := rounds + [Crash(0)];
    AfterOneMore(rounds, Crash(0));
    rounds := rounds + [Crash(0)];
  }
}
