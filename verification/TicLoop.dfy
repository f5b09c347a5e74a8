/** The tic producer and consumer of programs/subprojects/doom/d_loop.c, built without FEATURE_MULTIPLAYER: commands
    are built into a ring, and each is run `ticdup` times.  The clock, the player's input and the flags that the
    network code would set are parameters. */
module TicLoop {

  /** A tic command: the chat character, the button byte, and everything else. */
  datatype Cmd = Cmd(chat: nat, buttons: nat, rest: int)

  /** A ring slot: the local player's command and whether the local and any other player are in the game. */
  datatype Slot = Slot(cmd: Cmd, ingame: bool, others: bool)

  /** BT_SPECIAL is bit 7 of the button byte. */
  predicate IsSpecial(c: Cmd) { c.buttons / 128 % 2 == 1 }

  /** `TicdupSquash` on one command. */
  function Squash(c: Cmd): Cmd { c.(chat := 0, buttons := if IsSpecial(c) then 0 else c.buttons) }

  /** A repeated tic has no chat and no special buttons; anything else it keeps. */
  lemma SquashIs(c: Cmd)
    requires c.buttons < 256
    ensures Squash(c) == c.(chat := 0, buttons := if c.buttons >= 128 then 0 else c.buttons) && !IsSpecial(Squash(c))
  {
  }

  lemma SquashTwice(c: Cmd)
    ensures Squash(Squash(c)) == Squash(c)
  {
  }

  lemma MultipleIsFar(k: int, n: nat)
    ensures k * n >= n || k * n <= 0
    ensures k >= 1 ==> k * n >= n
    ensures k <= -1 ==> k * n <= 0 - n
  {
    if k >= 1 {
      assert k * n == n + (k - 1) * n && (k - 1) * n >= 0;
    } else if k <= -1 {
      assert k * n == 0 - n + (k + 1) * n && (k + 1) * n <= 0;
    }
  }

  /** Tics less than a ring's length apart use different slots. */
  lemma ModDistinct(s: nat, t: nat, n: nat)
    requires s < t < s + n
    ensures s % n != t % n
  {
    MultipleIsFar(t / n - s / n, n);
    assert s == s / n * n + s % n && t == t / n * n + t % n;
    assert (t / n - s / n) * n == t / n * n - s / n * n;
  }

  lemma StepDiv(q: nat, i: nat, n: nat)
    requires i < n
    ensures (q * n + i) / n == q && (q * n + i) % n == i
  {
    var x := q * n + i;
    MultipleIsFar(x / n - q, n);
    assert x == x / n * n + x % n;
    assert (x / n - q) * n == x / n * n - q * n;
  }

  lemma Distribute(g: nat, k: nat, n: nat)
    ensures (g + k) * n == g * n + k * n
  {
  }

  /** What the producer goes by: the next tic to build, the clock at the last update, and tics still to be skipped. */
  datatype Producer = Producer(maketic: nat, lasttime: int, skiptics: int) {
    /** The reading of the clock up to which tics have been asked for. */
    function Horizon(): int { lasttime + skiptics }
  }

  class Loop {
    const backup: nat           // BACKUPTICS
    const ticdup: nat
    const newSync: bool
    const singletics: bool
    const connected: bool       // net_client_connected
    const drone: bool
    const input: nat -> Cmd     // what BuildTiccmd makes for a tic

    var maketic: nat
    var gametic: nat
    var slots: seq<Slot>
    var lasttime: int
    var skiptics: int
    var oldentertics: int
    var playing: bool           // some entry of local_playeringame is set
    ghost var ran: seq<Slot>    // what RunTic has been given so far

    /** How far building may get ahead of running. */
    function MaxLead(): nat {
      if !newSync then 5 else if connected then 9 else 3
    }

    /** The command that run number `k` must see: as built the first time, squashed on the repeats. */
    function Expected(k: nat): Cmd
      requires ticdup > 0
    {
      if k % ticdup == 0 then input(k / ticdup) else Squash(input(k / ticdup))
    }

    ghost predicate Configured() { backup > 9 && ticdup > 0 }

    /** The next tic to run is `g`: everything before it ran as expected, everything built since is still in the ring. */
    ghost predicate At(g: nat)
      reads this
    {
      && Configured() && |slots| == backup
      && gametic == g * ticdup
      && g <= maketic <= g + MaxLead()
      && (forall t :: g <= t < maketic ==> slots[t % backup].cmd == input(t) && slots[t % backup].ingame)
      && RanAsExpected(gametic)
    }

    ghost predicate RanAsExpected(n: nat)
      reads this
      requires ticdup > 0
    {
      |ran| == n && forall k :: 0 <= k < n ==> ran[k].cmd == Expected(k) && ran[k].ingame && (!connected ==> !ran[k].others)
    }

    ghost predicate Valid()
      reads this
    {
      Configured() && At(gametic / ticdup)
    }

    constructor (backup: nat, ticdup: nat, newSync: bool, singletics: bool, connected: bool, drone: bool, input: nat -> Cmd, start: int)
      requires backup > 9 && ticdup > 0
      ensures Valid() && gametic == 0 && State() == Producer(0, start, 0) && oldentertics == 0 && !playing
    {
      this.backup, this.ticdup, this.newSync, this.singletics := backup, ticdup, newSync, singletics;
      this.connected, this.drone, this.input := connected, drone, input;
      maketic, gametic, lasttime, skiptics, oldentertics, playing := 0, 0, start, 0, 0, false;
      slots := seq(backup, i => Slot(Cmd(0, 0, 0), false, false));
      ran := [];
    }

    function State(): Producer
      reads this`maketic, this`lasttime, this`skiptics
    {
      Producer(maketic, lasttime, skiptics)
    }

    /** `BuildNewTic`: refused when too far ahead. */
    method BuildNewTic(ghost g: nat) returns (ok: bool)
      requires At(g)
      modifies this`slots, this`maketic
      ensures At(g)
      ensures maketic == old(maketic) + (if ok then 1 else 0)
      ensures ok <==> !drone && old(maketic) - g < if !newSync then 5 else if connected then 9 else 3
    {
      var gameticdiv := gametic / ticdup;
      StepDiv(g, 0, ticdup);
      if drone { return false; }
      if newSync {
        if !connected && maketic - gameticdiv > 2 { return false; }
        if maketic - gameticdiv > 8 { return false; }
      } else {
        if maketic - gameticdiv >= 5 { return false; }
      }
      forall t | g <= t < maketic
        ensures t % backup != maketic % backup
      {
        ModDistinct(t, maketic, backup);
      }
      var at := maketic % backup;
      slots := slots[at := slots[at].(cmd := input(maketic), ingame := true)];
      maketic := maketic + 1;
      return true;
    }

    /** How many of `n` wanted tics can be built: none as a drone, else as many as the lead allows. */
    function Buildable(p: Producer, g: nat, n: int): (k: nat) {
      var room := MaxLead() - (p.maketic - g);
      if drone || n <= 0 || room <= 0 then 0 else if n < room then n else room
    }

    /** One update: the tics since the last one are built, less those to be skipped. */
    function Updated(p: Producer, g: nat, now: int): Producer {
      if singletics then p
      else if now >= p.Horizon() then Producer(p.maketic + Buildable(p, g, now - p.Horizon()), now, 0)
      else Producer(p.maketic, now, p.Horizon() - now)
    }

    /** `NetUpdate`, with the adjusted clock already divided by `ticdup`. */
    method NetUpdate(nowtime: int, ghost g: nat)
      requires At(g)
      modifies this`slots, this`maketic, this`lasttime, this`skiptics
      ensures At(g) && State() == Updated(old(State()), g, nowtime)
    {
      StepDiv(g, 0, ticdup);
      if singletics { return; }
      var newtics := nowtime - lasttime;
      lasttime := nowtime;
      if skiptics <= newtics {
        newtics := newtics - skiptics;
        skiptics := 0;
      } else {
        skiptics := skiptics - newtics;
        newtics := 0;
      }
      var i := 0;
      var ok := true;
      while i < newtics && ok
        invariant At(g) && 0 <= i <= newtics && lasttime == nowtime && skiptics == Updated(old(State()), g, nowtime).skiptics
        invariant ok ==> maketic == old(maketic) + i && (i > 0 ==> !drone)
        invariant !ok ==> i > 0 && maketic == old(maketic) + i - 1 && (if drone then i == 1 else maketic - g == MaxLead())
      {
        ok := BuildNewTic(g);
        i := i + 1;
      }
    }

    /** `PlayersInGame`. */
    predicate PlayersInGame()
      reads this`playing
    {
      (connected && playing) || !drone
    }

    /** The middle of the run loop: `i` of the `ticdup` runs of tic `g` are done. */
    ghost predicate Within(g: nat, i: nat)
      reads this
    {
      && Configured() && |slots| == backup && i <= ticdup
      && gametic == g * ticdup + i
      && g < maketic <= g + MaxLead()
      && (forall t :: g < t < maketic ==> slots[t % backup].cmd == input(t) && slots[t % backup].ingame)
      && slots[g % backup].cmd == (if i == 0 then input(g) else Squash(input(g)))
      && slots[g % backup].ingame && (!connected ==> !slots[g % backup].others)
      && RanAsExpected(gametic)
    }

    /** One pass of the inner run loop. */
    method RunOnce(ghost g: nat, ghost i: nat)
      requires Within(g, i) && i < ticdup
      modifies this`slots, this`gametic, this`playing, this`ran
      ensures Within(g, i + 1) && playing && maketic == old(maketic)
    {
      StepDiv(g, i, ticdup);
      var at := gametic / ticdup % backup;
      forall t | g < t < maketic
        ensures t % backup != at
      {
        ModDistinct(g, t, backup);
      }
      SquashTwice(input(g));
      var slot := slots[at];
      playing := slot.ingame || slot.others;
      ran := ran + [slot];
      gametic := gametic + 1;
      slots := slots[at := slot.(cmd := Squash(slot.cmd))];
    }

    /** One pass of the outer run loop: tic `g` is run `ticdup` times.  `error` is the check in front of each run. */
    method RunTicdup(lowtic: nat, ghost g: nat) returns (error: bool)
      requires At(g) && g < maketic && g <= lowtic
      modifies this`slots, this`gametic, this`playing, this`ran
      ensures At(g + 1) && !error && playing
    {
      StepDiv(g, 0, ticdup);
      var at := gametic / ticdup % backup;
      if !connected {
        forall t | g < t < maketic
          ensures t % backup != at
        {
          ModDistinct(g, t, backup);
        }
        slots := slots[at := slots[at].(others := false)];
      }
      error := false;
      var i := 0;
      while i < ticdup
        invariant 0 <= i <= ticdup && Within(g, i) && !error && (i > 0 ==> playing)
      {
        StepDiv(g, i, ticdup);
        error := error || gametic / ticdup > lowtic;
        RunOnce(g, i);
        i := i + 1;
      }
      assert gametic == (g + 1) * ticdup;
    }

    function AtLeastOne(n: int): int { if n < 1 then 1 else n }

    /** How many tics `TryRunTics` decides to run: all that are available, but in old sync, when the clock is behind
        them, only one more than it has moved, with one tic kept in hand. */
    function Counts(realtics: int, available: int): (n: int)
      ensures n >= 1 && (available >= 1 ==> n <= available)
      ensures newSync || realtics >= available ==> n == AtLeastOne(available)
      ensures !newSync && realtics < available ==> n == AtLeastOne(if realtics + 1 < available then realtics + 1 else available - 1)
    {
      var counts :=
        if newSync then available
        else if realtics < available - 1 then realtics + 1
        else if realtics < available then realtics
        else available;
      if counts < 1 then 1 else counts
    }

    /** Built tics up to the clock, or one tic when timing a demo. */
    function Prepared(p: Producer, g: nat, now: int): Producer {
      if singletics then p.(maketic := p.maketic + Buildable(p, g, 1)) else Updated(p, g, now)
    }

    method Prepare(now: int, ghost g: nat)
      requires At(g)
      modifies this`slots, this`maketic, this`lasttime, this`skiptics
      ensures At(g) && State() == Prepared(old(State()), g, now)
    {
      StepDiv(g, 0, ticdup);
      if singletics {
        var _ := BuildNewTic(g);
      } else {
        NetUpdate(now, g);
      }
    }

    /** The waiting loop, turn by turn: it ends when there are `counts` tics to run, or when the clock has moved on. */
    function Waited(p: Producer, g: nat, counts: int, entertic: int, inGame: bool, waits: seq<(int, int)>): (r: (Producer, bool))
      ensures r.0.maketic >= p.maketic
      ensures !r.1 ==> inGame && r.0.maketic >= g + counts
      ensures inGame && p.maketic >= g + counts ==> r == (p, false)
      decreases |waits|
    {
      if inGame && p.maketic >= g + counts then (p, false)
      else if waits == [] then (p, true)
      else
        var p' := Updated(p, g, waits[0].0);
        if waits[0].1 - entertic > 0 then (p', true) else Waited(p', g, counts, entertic, inGame, waits[1..])
    }

    /** `waits` gives the readings for each turn; when they end early the run is observed no further. */
    method WaitForTics(counts: int, entertic: int, waits: seq<(int, int)>, ghost g: nat) returns (lowtic: nat, expired: bool, error: bool)
      requires At(g) && counts >= 1
      modifies this`slots, this`maketic, this`lasttime, this`skiptics
      ensures At(g) && !error && lowtic == maketic
      ensures (State(), expired) == Waited(old(State()), g, counts, entertic, PlayersInGame(), waits)
    {
      StepDiv(g, 0, ticdup);
      lowtic, expired, error := maketic, false, false;
      ghost var end := Waited(State(), g, counts, entertic, PlayersInGame(), waits);
      var k := 0;
      while !expired && (!PlayersInGame() || lowtic < gametic / ticdup + counts)
        invariant At(g) && lowtic == maketic && 0 <= k <= |waits| && !error
        invariant if expired then end == (State(), true)
                  else end == Waited(State(), g, counts, entertic, PlayersInGame(), waits[k..])
        decreases |waits| - k, !expired
      {
        if k == |waits| {
          expired := true;
        } else {
          NetUpdate(waits[k].0, g);
          lowtic := maketic;
          error := error || lowtic < gametic / ticdup;
          expired := waits[k].1 - entertic > 0;
          k := k + 1;
        }
      }
    }

    /** The producer after `n` tics have been run, with an update behind each. */
    function AfterRuns(p: Producer, g: nat, runs: seq<int>, n: nat): (r: Producer)
      requires n <= |runs|
      ensures r.maketic >= p.maketic
    {
      if n == 0 then p else Updated(AfterRuns(p, g, runs, n - 1), g + n, runs[n - 1])
    }

    /** The running loop: `counts` tics, each `ticdup` times, with one reading of the clock behind each. */
    method RunTics(counts: int, lowtic: nat, runs: seq<int>, ghost g: nat) returns (tics: nat, error: bool)
      requires At(g) && counts >= 1 && PlayersInGame() && lowtic <= maketic && g + counts <= lowtic
      modifies this`slots, this`maketic, this`lasttime, this`skiptics, this`gametic, this`playing, this`ran
      ensures At(g + tics) && !error && (tics == 0 ==> playing == old(playing))
      ensures tics == if counts <= |runs| then counts else |runs|
      ensures State() == AfterRuns(old(State()), g, runs, tics)
    {
      tics, error := 0, false;
      while tics < counts && tics < |runs| && PlayersInGame()
        invariant 0 <= tics <= counts && tics <= |runs| && At(g + tics) && !error && PlayersInGame()
        invariant maketic >= lowtic && State() == AfterRuns(old(State()), g, runs, tics) && (tics == 0 ==> playing == old(playing))
      {
        error := RunTicdup(lowtic, g + tics);
        NetUpdate(runs[tics], g + tics + 1);
        tics := tics + 1;
      }
    }

    /** `TryRunTics`.  The readings of the clock are parameters: `entertic` and `now` at entry, one pair for every turn
        of the waiting loop, and one for every tic that is run.  A list of readings that ends early stands for a run
        observed up to there.  `error` is raised where the source calls `I_Error`. */
    method TryRunTics(entertic: int, now: int, waits: seq<(int, int)>, runs: seq<int>) returns (error: bool, expired: bool, tics: nat)
      requires Valid()
      modifies this
      ensures Valid() && !error && oldentertics == entertic && (tics == 0 ==> playing == old(playing))
      ensures gametic == old(gametic) + tics * ticdup
      ensures var g := old(gametic) / ticdup;
              var p := Prepared(old(State()), g, now);
              var counts := Counts(entertic - old(oldentertics), p.maketic - g);
              var (q, late) := Waited(p, g, counts, entertic, old(PlayersInGame()), waits);
              && expired == late
              && tics == (if expired then 0 else if counts <= |runs| then counts else |runs|)
              && State() == AfterRuns(q, g, runs, tics)
    {
      hide At, Counts, PlayersInGame, Waited, Prepared, AfterRuns;
      ghost var g := gametic / ticdup;
      var realtics := entertic - oldentertics;
      oldentertics := entertic;
      AtClock(g);
      GameticIs(g);
      Prepare(now, g);
      GameticIs(g);
      var counts := Counts(realtics, maketic - gametic / ticdup);
      CountsFit(realtics, maketic - g);
      error, expired, tics := WaitAndRun(counts, entertic, waits, runs, g);
      GameticIs(g + tics);
      Distribute(g, tics, ticdup);
    }

    /** The two loops of `TryRunTics`. */
    method WaitAndRun(counts: int, entertic: int, waits: seq<(int, int)>, runs: seq<int>, ghost g: nat)
      returns (error: bool, expired: bool, tics: nat)
      requires At(g) && counts >= 1
      modifies this`slots, this`maketic, this`lasttime, this`skiptics, this`gametic, this`playing, this`ran
      ensures At(g + tics) && !error && (tics == 0 ==> playing == old(playing))
      ensures tics == if expired then 0 else if counts <= |runs| then counts else |runs|
      ensures var (q, late) := Waited(old(State()), g, counts, entertic, old(PlayersInGame()), waits);
              expired == late && State() == AfterRuns(q, g, runs, tics)
    {
      hide At, Waited;
      var lowtic;
      lowtic, expired, error := WaitForTics(counts, entertic, waits, g);
      tics := 0;
      if !expired {
        tics, error := RunTics(counts, lowtic, runs, g);
      }
    }

    lemma CountsFit(realtics: int, available: int)
      ensures var counts := Counts(realtics, available); counts >= 1 && (available >= 1 ==> counts <= available)
    {
    }

    lemma GameticIs(g: nat)
      requires At(g)
      ensures ticdup > 0 && gametic == g * ticdup && gametic / ticdup == g
    {
      StepDiv(g, 0, ticdup);
    }

    twostate lemma AtClock(g: nat)
      requires old(At(g))
      requires unchanged(this`maketic, this`gametic, this`slots, this`ran)
      ensures At(g)
    {
    }

    // ----- what the updates add up to -----

    /** The last of some readings of the clock, or rather the furthest. */
    function Furthest(h: int, readings: seq<int>): (m: int)
      ensures m >= h && forall t :: t in readings ==> m >= t
      ensures m == h || m in readings
    {
      if readings == [] then h
      else
        var m := Furthest(h, readings[..|readings| - 1]);
        var t := readings[|readings| - 1];
        assert readings == readings[..|readings| - 1] + [t];
        if t > m then t else m
    }

    function UpdatedAll(p: Producer, g: nat, readings: seq<int>): (r: Producer) {
      if readings == [] then p
      else Updated(UpdatedAll(p, g, readings[..|readings| - 1]), g, readings[|readings| - 1])
    }

    /** Over any readings, forwards or backwards, the tics built are those from the horizon to the furthest reading, as
        far as there is room. */
    lemma {:induction false} BuiltInAll(p: Producer, g: nat, readings: seq<int>)
      requires !singletics && p.maketic <= g + MaxLead()
      ensures var q := UpdatedAll(p, g, readings);
              && q.Horizon() == Furthest(p.Horizon(), readings)
              && q.maketic == p.maketic + Buildable(p, g, q.Horizon() - p.Horizon()) <= g + MaxLead()
    {
      if readings != [] {
        BuiltInAll(p, g, readings[..|readings| - 1]);
      }
    }

    /** While the clock stands still a second update builds nothing. */
    lemma SecondUpdate(p: Producer, g: nat, g': nat, now: int)
      ensures var q := Updated(p, g, now); Updated(q, g', now) == q
    {
    }

    /** However many tics are run in between, no more are built than the clock has moved on. */
    lemma {:induction false} BuiltByClock(p: Producer, g: nat, runs: seq<int>, n: nat)
      requires !singletics && n <= |runs|
      ensures var q := AfterRuns(p, g, runs, n);
              q.Horizon() == Furthest(p.Horizon(), runs[..n]) && q.maketic - p.maketic <= q.Horizon() - p.Horizon()
    {
      if n > 0 {
        BuiltByClock(p, g, runs, n - 1);
        assert runs[..n][..n - 1] == runs[..n - 1];
      }
    }
  }
}
