/** Every multi-actor run, seen from one actor, is a run of the recursive interpreter over that
    actor's own program text, with the other actors appearing only as changes of the shared
    state between its steps. */
module Projection {
  import opened Order
  import opened Values
  import opened Steps
  import opened Programs
  import opened Routing
  import opened Interpreter
  import opened Weights
  import opened Actors
  import opened Evidence

  /** The steps executed so far, and the shared states still to be seen, the current one first. */
  datatype Script = Script(log: seq<Site>, seen: seq<State>)

  function Shown(r: Script): State {
    if r.seen == [] then map[] else r.seen[0]
  }

  /** Executing a step logs it and lets the environment move on to the next state this actor sees. */
  function Play(site: Site, r: Script): Result<Script> {
    if r.seen == [] then Err(SchedulerInvalid) else Ok(Script(r.log + [site], r.seen[1..]))
  }

  ghost function Solo(w: World, p: Program, rank: map<string, nat>): Ctx<Script> {
    Ctx(w, p, rank, Machine(Shown, Play), false)
  }

  /** The steps one actor executed in a run, in order. */
  ghost function Own(moves: seq<Move>, actor: string): seq<Site> {
    if moves == [] then []
    else
      var rest := Own(moves[..|moves| - 1], actor);
      var last := moves[|moves| - 1];
      if last.actor == actor then rest + [last.site] else rest
  }

  /** The shared states an actor saw when its own steps were selected. */
  ghost function Seen(initial: State, history: seq<HistoryRecord>, moves: seq<Move>, actor: string): seq<State>
    requires |moves| <= |history|
  {
    if moves == [] then []
    else
      var rest := Seen(initial, history, moves[..|moves| - 1], actor);
      if moves[|moves| - 1].actor == actor then rest + [StateAfter(initial, history, |moves| - 1)] else rest
  }

  lemma {:induction false} SeenPrefix(initial: State, history: seq<HistoryRecord>, longer: seq<HistoryRecord>, moves: seq<Move>, actor: string)
    requires |moves| <= |history| <= |longer| && longer[..|history|] == history
    ensures Seen(initial, history, moves, actor) == Seen(initial, longer, moves, actor)
    decreases |moves|
  {
    if moves != [] {
      SeenPrefix(initial, history, longer, moves[..|moves| - 1], actor);
      StatePrefix(initial, history, longer, |moves| - 1);
    }
  }

  lemma {:induction false} SameCount(initial: State, history: seq<HistoryRecord>, moves: seq<Move>, actor: string)
    requires |moves| <= |history|
    ensures |Own(moves, actor)| == |Seen(initial, history, moves, actor)|
    decreases |moves|
  {
    if moves != [] { SameCount(initial, history, moves[..|moves| - 1], actor); }
  }

  ghost predicate Ranks(sc: Scenario, rank: map<string, map<string, nat>>) {
    forall a :: a in Addresses(sc.actors) ==> a in rank && Ranked(ActorAt(sc, a).program, rank[a])
  }

  /** Interpreting an actor's whole program against what it saw arrives at the frames it now holds,
      having executed exactly its own steps, whatever states it is yet to see. */
  ghost predicate FollowsProgram(w: World, sc: Scenario, rank: map<string, map<string, nat>>, cfg: Config, actor: string, tail: seq<State>)
    requires ConfigOK(sc, cfg) && Ranks(sc, rank) && actor in Addresses(sc.actors) && |cfg.moves| <= |cfg.runner.history|
  {
    var p := ActorAt(sc, actor).program;
    var c := Solo(w, p, rank[actor]);
    && actor in cfg.controls && FramesOK(p, cfg.controls[actor])
    && Resume(c, Start(p), Script([], Seen(sc.initial, cfg.runner.history, cfg.moves, actor) + tail))
       == Resume(c, cfg.controls[actor], Script(Own(cfg.moves, actor), tail))
  }

  ghost predicate AllFollow(w: World, sc: Scenario, rank: map<string, map<string, nat>>, cfg: Config)
    requires ConfigOK(sc, cfg) && Ranks(sc, rank)
  {
    |cfg.moves| <= |cfg.runner.history|
    && forall a, tail :: a in Addresses(sc.actors) ==> FollowsProgram(w, sc, rank, cfg, a, tail)
  }

  lemma InitialFollows(w: World, sc: Scenario, rank: map<string, map<string, nat>>)
    requires Ranks(sc, rank)
    ensures ConfigOK(sc, Initial(sc)) && AllFollow(w, sc, rank, Initial(sc))
  {
    InitialOK(sc);
    forall a, tail: seq<State> | a in Addresses(sc.actors) ensures FollowsProgram(w, sc, rank, Initial(sc), a, tail) {
      hide Resume;
      assert a in Initial(sc).controls;
      assert Seen(sc.initial, [], [], a) + tail == tail;
    }
  }

  /** The selected actor's next state is the current shared state, and routing found its next step. */
  lemma MoverFollows(w: World, sc: Scenario, q: Request, rank: map<string, map<string, nat>>, cfg: Config, d: Decision, next: Config, tail: seq<State>)
    requires ConfigOK(sc, cfg) && Ranks(sc, rank) && Accounted(w, sc, q, cfg) && AllFollow(w, sc, rank, cfg)
    requires d.actor in Addresses(sc.actors) && RouteOne(w, sc, cfg, d.actor).Found?
    requires CommitMove(w, sc, q, cfg, d) == Ok(next) && ConfigOK(sc, next)
    requires |next.runner.history| == |cfg.runner.history| + 1 && next.runner.history[..|cfg.runner.history|] == cfg.runner.history
    ensures |next.moves| <= |next.runner.history| && FollowsProgram(w, sc, rank, next, d.actor, tail)
  {
    hide Resume, Route, CommitMove, Accounted, ConfigOK, Own, Seen, StateAfter;
    MoverShape(w, sc, q, cfg, d, next);
    AccountedState(w, sc, q, cfg);
    var p := ActorAt(sc, d.actor).program;
    var c := Solo(w, p, rank[d.actor]);
    var n := |cfg.moves|;
    var site := RouteOne(w, sc, cfg, d.actor).site;
    var now := [cfg.runner.state] + tail;
    assert FollowsProgram(w, sc, rank, cfg, d.actor, now);
    RouteRefines(c, cfg.controls[d.actor], Script(Own(cfg.moves, d.actor), now), 0);
    SeenStep(sc.initial, cfg.runner.history, next.runner.history, cfg.moves, Move(d.actor, site));
    assert Seen(sc.initial, next.runner.history, next.moves, d.actor) + tail
           == Seen(sc.initial, cfg.runner.history, cfg.moves, d.actor) + now;
    assert now[1..] == tail;
  }

  /** The mover's own steps and sights grow by one: the step it took and the state it took it in. */
  lemma SeenStep(initial: State, history: seq<HistoryRecord>, longer: seq<HistoryRecord>, moves: seq<Move>, m: Move)
    requires |moves| <= |history| && |longer| == |history| + 1 && longer[..|history|] == history
    ensures Own(moves + [m], m.actor) == Own(moves, m.actor) + [m.site]
    ensures Seen(initial, longer, moves + [m], m.actor) == Seen(initial, history, moves, m.actor) + [StateAfter(initial, history, |moves|)]
  {
    assert (moves + [m])[..|moves|] == moves;
    SeenPrefix(initial, history, longer, moves, m.actor);
    StatePrefix(initial, history, longer, |moves|);
  }

  lemma MoverShape(w: World, sc: Scenario, q: Request, cfg: Config, d: Decision, next: Config)
    requires ConfigOK(sc, cfg) && d.actor in Addresses(sc.actors) && RouteOne(w, sc, cfg, d.actor).Found?
    requires CommitMove(w, sc, q, cfg, d) == Ok(next)
    ensures var p := ActorAt(sc, d.actor).program;
            var found := RouteOne(w, sc, cfg, d.actor);
            && d.actor in cfg.controls && FramesOK(p, cfg.controls[d.actor])
            && found == Route(w, p, cfg.runner.state, cfg.controls[d.actor], 0)
            && next.moves == cfg.moves + [Move(d.actor, found.site)]
            && d.actor in next.controls && next.controls[d.actor] == found.frames && FramesOK(p, found.frames)
            && next.controls.Keys == cfg.controls.Keys
            && forall a :: a in cfg.controls && a != d.actor ==> next.controls[a] == cfg.controls[a]
  {
    hide Route, CommitMove;
    assert d.actor in Elements(Addresses(sc.actors));
    CommitMoveFrame(w, sc, q, cfg, d);
  }

  lemma AccountedState(w: World, sc: Scenario, q: Request, cfg: Config)
    requires Accounted(w, sc, q, cfg)
    ensures |cfg.moves| == |cfg.runner.history|
    ensures cfg.runner.state == StateAfter(sc.initial, cfg.runner.history, |cfg.moves|)
  {
  }

  /** An actor that was not selected sees and does nothing. */
  lemma BystanderFollows(w: World, sc: Scenario, rank: map<string, map<string, nat>>, cfg: Config, next: Config, m: Move, actor: string, tail: seq<State>)
    requires ConfigOK(sc, cfg) && ConfigOK(sc, next) && Ranks(sc, rank) && AllFollow(w, sc, rank, cfg)
    requires actor in Addresses(sc.actors) && actor != m.actor
    requires next.moves == cfg.moves + [m] && actor in cfg.controls && actor in next.controls && next.controls[actor] == cfg.controls[actor]
    requires |next.runner.history| == |cfg.runner.history| + 1 && next.runner.history[..|cfg.runner.history|] == cfg.runner.history
    ensures |next.moves| <= |next.runner.history| && FollowsProgram(w, sc, rank, next, actor, tail)
  {
    hide Resume, ConfigOK;
    assert FollowsProgram(w, sc, rank, cfg, actor, tail);
    assert next.moves[..|cfg.moves|] == cfg.moves;
    SeenPrefix(sc.initial, cfg.runner.history, next.runner.history, cfg.moves, actor);
  }

  lemma RoundFollows(w: World, sc: Scenario, q: Request, rank: map<string, map<string, nat>>, cfg: Config, expected: Option<Schedule>)
    requires ConfigOK(sc, cfg) && Ranks(sc, rank) && Accounted(w, sc, q, cfg) && AllFollow(w, sc, rank, cfg)
    requires PlayRound(w, sc, q, cfg, expected).Continue?
    ensures var next := PlayRound(w, sc, q, cfg, expected).cfg;
            ConfigOK(sc, next) && AllFollow(w, sc, rank, next)
  {
    hide PlayRound, Accounted, FollowsProgram, Decide, RouteOne, CommitMove, ReadySet, ExecuteSite, ConfigOK;
    RoundFrame(w, sc, q, cfg, expected);
    var next, d := PlayRound(w, sc, q, cfg, expected).cfg, Decide(w, sc, q, cfg);
    CommitMoveFrame(w, sc, q, cfg, d);
    MoverShape(w, sc, q, cfg, d, next);
    var site := RouteOne(w, sc, cfg, d.actor).site;
    CommittedStep(w, Who(sc, q, d.actor), site, cfg.runner);
    MoverFollows(w, sc, q, rank, cfg, d, next, []);
    forall a, tail: seq<State> | a in Addresses(sc.actors) ensures FollowsProgram(w, sc, rank, next, a, tail) {
      if a == d.actor {
        MoverFollows(w, sc, q, rank, cfg, d, next, tail);
      } else {
        ControlsCover(sc, cfg, a);
        BystanderFollows(w, sc, rank, cfg, next, Move(d.actor, site), a, tail);
      }
    }
  }

  lemma ControlsCover(sc: Scenario, cfg: Config, a: string)
    requires ConfigOK(sc, cfg) && a in Addresses(sc.actors)
    ensures a in cfg.controls && FramesOK(ActorAt(sc, a).program, cfg.controls[a])
  {
    assert a in Elements(Addresses(sc.actors));
  }

  /** In every configuration of every run, each actor has executed its own program up to the frames it holds. */
  lemma {:induction false} EveryActorFollows(w: World, sc: Scenario, q: Request, rank: map<string, map<string, nat>>, expected: Option<Schedule>, n: nat)
    requires Ranks(sc, rank)
    ensures AllFollow(w, sc, rank, After(w, sc, q, expected, n))
  {
    hide PlayRound, Accounted, AllFollow, ConfigOK;
    if n == 0 {
      InitialFollows(w, sc, rank);
    } else {
      EveryActorFollows(w, sc, q, rank, expected, n - 1);
      RunAccounted(w, sc, q, expected, n - 1);
      var cfg := After(w, sc, q, expected, n - 1);
      if PlayRound(w, sc, q, cfg, expected).Continue? { RoundFollows(w, sc, q, rank, cfg, expected); }
    }
  }

  lemma LastFollows(w: World, sc: Scenario, q: Request, rank: map<string, map<string, nat>>, expected: Option<Schedule>)
    requires Ranks(sc, rank)
    ensures ConfigOK(sc, Initial(sc))
    ensures var last := Last(w, sc, q, Initial(sc), expected);
            Accounted(w, sc, q, last) && AllFollow(w, sc, rank, last)
  {
    hide Accounted, AllFollow, Last;
    InitialOK(sc);
    LastIsAfter(w, sc, q, expected, 0);
    var k :| k >= 0 && Last(w, sc, q, After(w, sc, q, expected, 0), expected) == After(w, sc, q, expected, k);
    RunAccounted(w, sc, q, expected, k);
    EveryActorFollows(w, sc, q, rank, expected, k);
  }

  /** A successful run drains every actor: interpreting its whole program against the shared states it
      saw, the last being the final state, completes with exactly its own steps executed. */
  lemma SuccessCompletesEveryProgram(w: World, sc: Scenario, q: Request, rank: map<string, map<string, nat>>, expected: Option<Schedule>, actor: string)
    requires Ranks(sc, rank) && actor in Addresses(sc.actors)
    requires ExecuteActors(w, sc, q, expected).Finished?
    ensures ConfigOK(sc, Initial(sc))
    ensures var last := Last(w, sc, q, Initial(sc), expected);
            var c := Solo(w, ActorAt(sc, actor).program, rank[actor]);
            && |last.moves| <= |last.runner.history|
            && ExecSequence(c, None, 0, None, ROOT_PLACE,
                 Script([], Seen(sc.initial, last.runner.history, last.moves, actor) + [last.runner.state]))
               == Done(Script(Own(last.moves, actor), [last.runner.state]))
  {
    hide Route, PlayRound, Run, Accounted, ConfigOK, Last, Own, Seen, ExecSequence;
    LastFollows(w, sc, q, rank, expected);
    RunEndsAtLast(w, sc, q, Initial(sc), expected);
    var last := Last(w, sc, q, Initial(sc), expected);
    var p := ActorAt(sc, actor).program;
    var c := Solo(w, p, rank[actor]);
    ControlsCover(sc, last, actor);
    FinishedDrains(w, sc, q, last, expected, actor);
    assert FollowsProgram(w, sc, rank, last, actor, [last.runner.state]);
    RouteRefines(c, last.controls[actor], Script(Own(last.moves, actor), [last.runner.state]), 0);
    var seen := Seen(sc.initial, last.runner.history, last.moves, actor) + [last.runner.state];
    StartResumes(c, Script([], seen));
  }

  lemma StartResumes<R>(c: Ctx<R>, r: R)
    requires Ranked(c.p, c.rank)
    ensures FramesOK(c.p, Start(c.p)) && Resume(c, Start(c.p), r) == ExecSequence(c, None, 0, None, ROOT_PLACE, r)
  {
    hide ExecSequence;
    var f := Sequence(None, 0, None, ROOT_PLACE);
    assert FrameOK(c.p, f);
    assert Start(c.p) == [] + [f];
    ResumePush(c, [], f, r);
  }

  lemma FinishedDrains(w: World, sc: Scenario, q: Request, cfg: Config, expected: Option<Schedule>, actor: string)
    requires ConfigOK(sc, cfg) && PlayRound(w, sc, q, cfg, expected).End? && PlayRound(w, sc, q, cfg, expected).ending.Finished?
    requires actor in Addresses(sc.actors) && actor in cfg.controls && FramesOK(ActorAt(sc, actor).program, cfg.controls[actor])
    ensures Route(w, ActorAt(sc, actor).program, cfg.runner.state, cfg.controls[actor], 0).Drained?
  {
    hide Route, Decide, CommitMove, BuildReport;
    EndingReports(w, sc, q, cfg, expected, PlayRound(w, sc, q, cfg, expected).ending);
    assert actor !in ReadySet(w, sc, cfg);
    NoRoutingError(w, sc, cfg, Addresses(sc.actors), actor);
  }

  lemma {:induction false} NoRoutingError(w: World, sc: Scenario, cfg: Config, declared: seq<string>, actor: string)
    requires ConfigOK(sc, cfg) && forall a :: a in declared ==> a in Addresses(sc.actors)
    requires actor in declared && RoutingError(w, sc, cfg, declared).None?
    ensures !RouteOne(w, sc, cfg, actor).Unroutable?
    decreases |declared|
  {
    hide RouteOne;
    if declared[0] != actor { NoRoutingError(w, sc, cfg, declared[1..], actor); }
  }

  // ---------------------------------------------------------------- the history as an interleaving

  /** The positions of an actor's own steps in a run. */
  ghost function Positions(moves: seq<Move>, actor: string): seq<nat> {
    if moves == [] then []
    else
      var rest := Positions(moves[..|moves| - 1], actor);
      if moves[|moves| - 1].actor == actor then rest + [|moves| - 1] else rest
  }

  ghost predicate Rising(positions: seq<nat>) {
    forall i, j :: 0 <= i < j < |positions| ==> positions[i] < positions[j]
  }

  lemma {:induction false} PositionsOwn(moves: seq<Move>, actor: string)
    ensures |Positions(moves, actor)| == |Own(moves, actor)| && Rising(Positions(moves, actor))
    ensures forall k :: 0 <= k < |Own(moves, actor)| ==>
              Positions(moves, actor)[k] < |moves| && moves[Positions(moves, actor)[k]] == Move(actor, Own(moves, actor)[k])
    ensures forall i :: 0 <= i < |moves| && moves[i].actor == actor ==> i in Positions(moves, actor)
    decreases |moves|
  {
    if moves != [] { PositionsOwn(moves[..|moves| - 1], actor); }
  }

  /** The k-th step an actor executed is the history entry at its k-th position, and positions rise. */
  ghost predicate Threaded(sc: Scenario, q: Request, cfg: Config, actor: string)
    requires actor in Addresses(sc.actors)
  {
    var positions, own := Positions(cfg.moves, actor), Own(cfg.moves, actor);
    && |positions| == |own| && Rising(positions)
    && forall k :: 0 <= k < |own| ==>
         && positions[k] < |cfg.runner.history|
         && cfg.runner.history[positions[k]].address == StepAddress(Who(sc, q, actor), own[k].place, own[k].spec.id)
  }

  ghost predicate Owned(sc: Scenario, cfg: Config, i: nat) {
    exists a :: a in Addresses(sc.actors) && i in Positions(cfg.moves, a)
  }

  /** The history is an interleaving of the actors' own step sequences: each keeps its order, and every
      entry belongs to exactly one of them. */
  ghost predicate Interleaved(sc: Scenario, q: Request, cfg: Config) {
    && (forall a :: a in Addresses(sc.actors) ==> Threaded(sc, q, cfg, a))
    && (forall i :: 0 <= i < |cfg.runner.history| ==> Owned(sc, cfg, i))
    && (forall a, b, i :: i in Positions(cfg.moves, a) && i in Positions(cfg.moves, b) ==> a == b)
  }

  lemma AccountedInterleaves(w: World, sc: Scenario, q: Request, cfg: Config)
    requires Accounted(w, sc, q, cfg)
    ensures Interleaved(sc, q, cfg)
  {
    hide Own, Positions, Rising, DecisionSound, Who;
    var history := cfg.runner.history;
    forall a | a in Addresses(sc.actors) ensures Threaded(sc, q, cfg, a) {
      PositionsOwn(cfg.moves, a);
      forall k | 0 <= k < |Own(cfg.moves, a)|
        ensures history[Positions(cfg.moves, a)[k]].address
             == StepAddress(Who(sc, q, a), Own(cfg.moves, a)[k].place, Own(cfg.moves, a)[k].spec.id)
      {
        var i := Positions(cfg.moves, a)[k];
        assert EntrySound(w, sc, q, cfg, i) by { var _ := history[i]; }
      }
    }
    forall i | 0 <= i < |history| ensures Owned(sc, cfg, i) {
      assert EntrySound(w, sc, q, cfg, i) by { var _ := history[i]; }
      PositionsOwn(cfg.moves, cfg.moves[i].actor);
      assert cfg.moves[i].actor in Addresses(sc.actors);
    }
    forall a, b, i | i in Positions(cfg.moves, a) && i in Positions(cfg.moves, b) ensures a == b {
      PositionsOwn(cfg.moves, a);
      PositionsOwn(cfg.moves, b);
    }
  }

  /** Every configuration of every run, and so every report. */
  lemma HistoryInterleaves(w: World, sc: Scenario, q: Request, expected: Option<Schedule>, n: nat)
    ensures Interleaved(sc, q, After(w, sc, q, expected, n))
    ensures ConfigOK(sc, Initial(sc)) && Interleaved(sc, q, Last(w, sc, q, Initial(sc), expected))
  {
    hide Accounted, Interleaved, Last;
    RunAccounted(w, sc, q, expected, n);
    AccountedInterleaves(w, sc, q, After(w, sc, q, expected, n));
    LastAccounted(w, sc, q, expected);
    AccountedInterleaves(w, sc, q, Last(w, sc, q, Initial(sc), expected));
  }

  // ---------------------------------------------------------------- how high the stacks get

  ghost predicate AllNested(sc: Scenario, rank: map<string, map<string, nat>>, cfg: Config)
    requires ConfigOK(sc, cfg) && Ranks(sc, rank)
  {
    forall a :: a in Addresses(sc.actors) ==>
      a in cfg.controls && Nested(ActorAt(sc, a).program, rank[a], cfg.controls[a])
  }

  lemma RoundNested(w: World, sc: Scenario, q: Request, rank: map<string, map<string, nat>>, cfg: Config, expected: Option<Schedule>)
    requires ConfigOK(sc, cfg) && Ranks(sc, rank) && AllNested(sc, rank, cfg)
    requires PlayRound(w, sc, q, cfg, expected).Continue?
    ensures var next := PlayRound(w, sc, q, cfg, expected).cfg;
            ConfigOK(sc, next) && AllNested(sc, rank, next)
  {
    hide PlayRound, Decide, RouteOne, CommitMove, ReadySet, ExecuteSite, ConfigOK, Nested, Ranked, Route;
    RoundFrame(w, sc, q, cfg, expected);
    var next, d := PlayRound(w, sc, q, cfg, expected).cfg, Decide(w, sc, q, cfg);
    MoverShape(w, sc, q, cfg, d, next);
    RouteNested(w, ActorAt(sc, d.actor).program, rank[d.actor], cfg.runner.state, cfg.controls[d.actor], 0);
  }

  lemma StartNested(p: Program, rank: map<string, nat>)
    requires Ranked(p, rank)
    ensures Nested(p, rank, Start(p))
  {
    hide Ranked;
  }

  lemma InitialNested(sc: Scenario, rank: map<string, map<string, nat>>)
    requires Ranks(sc, rank)
    ensures ConfigOK(sc, Initial(sc)) && AllNested(sc, rank, Initial(sc))
  {
    hide Nested, Ranked;
    InitialOK(sc);
    forall a | a in Addresses(sc.actors)
      ensures a in Initial(sc).controls && Nested(ActorAt(sc, a).program, rank[a], Initial(sc).controls[a])
    {
      StartNested(ActorAt(sc, a).program, rank[a]);
    }
  }

  lemma {:induction false} EveryControlNested(w: World, sc: Scenario, q: Request, rank: map<string, map<string, nat>>, expected: Option<Schedule>, n: nat)
    requires Ranks(sc, rank)
    ensures AllNested(sc, rank, After(w, sc, q, expected, n))
  {
    hide PlayRound, Nested, Ranked, Route, AllNested, ConfigOK;
    if n == 0 {
      InitialNested(sc, rank);
    } else {
      EveryControlNested(w, sc, q, rank, expected, n - 1);
      var before := After(w, sc, q, expected, n - 1);
      if PlayRound(w, sc, q, before, expected).Continue? { RoundNested(w, sc, q, rank, before, expected); }
    }
  }

  /** In every configuration of every run, the stack every actor holds, and every stack that routing it
      passes through there, obeys the height bound. */
  lemma EveryStackLow(w: World, sc: Scenario, q: Request, rank: map<string, map<string, nat>>, expected: Option<Schedule>, n: nat, actor: string)
    requires Ranks(sc, rank) && actor in Addresses(sc.actors)
    ensures var cfg, p := After(w, sc, q, expected, n), ActorAt(sc, actor).program;
            && actor in cfg.controls && FramesOK(p, cfg.controls[actor]) && Nested(p, rank[actor], cfg.controls[actor])
            && |cfg.controls[actor]| <= 1 + 2 * |p.subflows|
            && Peak(w, p, cfg.runner.state, cfg.controls[actor], 0) <= 1 + 2 * |p.subflows|
  {
    hide After, Nested, Ranked, Route, Peak;
    var cfg := After(w, sc, q, expected, n);
    EveryControlNested(w, sc, q, rank, expected, n);
    assert AllNested(sc, rank, cfg);
    ControlsCover(sc, cfg, actor);
    RouteNested(w, ActorAt(sc, actor).program, rank[actor], cfg.runner.state, cfg.controls[actor], 0);
  }

  // ---------------------------------------------------------------- how long a run can be

  lemma LogCounts(w: World, p: Program, rank: map<string, nat>)
    requires Ranked(p, rank)
    ensures Counts(Meter(Solo(w, p, rank), (r: Script) => |r.log|))
  {
  }

  /** No actor ever commits more steps than its program's static weight. */
  lemma ActorWithinWeight(w: World, sc: Scenario, rank: map<string, map<string, nat>>, cfg: Config, actor: string)
    requires ConfigOK(sc, cfg) && Ranks(sc, rank) && AllFollow(w, sc, rank, cfg) && actor in Addresses(sc.actors)
    ensures |Own(cfg.moves, actor)| <= Weight(ActorAt(sc, actor).program, rank[actor])
  {
    hide Resume, ExecSequence, SequenceWeight, ConfigOK;
    var p := ActorAt(sc, actor).program;
    var c := Solo(w, p, rank[actor]);
    var m := Meter(c, (r: Script) => |r.log|);
    LogCounts(w, p, rank[actor]);
    assert FollowsProgram(w, sc, rank, cfg, actor, []);
    var start := Script([], Seen(sc.initial, cfg.runner.history, cfg.moves, actor) + []);
    StartResumes(c, start);
    SequenceWithin(m, None, 0, None, ROOT_PLACE, start);
    ResumeKeepsLog(c, cfg.controls[actor], Script(Own(cfg.moves, actor), []));
  }

  lemma {:induction false} ResumeKeepsLog(c: Ctx<Script>, frames: seq<Frame>, r: Script)
    requires Ready(c, frames) && c.m == Machine(Shown, Play)
    ensures |r.log| <= |Resume(c, frames, r).runner.log|
    decreases |frames|
  {
    hide ExecSequence, ExecRepeat;
    var m := Meter(c, (s: Script) => |s.log|);
    assert Counts(m);
    if frames != [] {
      var top := frames[|frames| - 1];
      assert FrameOK(c.p, top);
      match top {
        case Sequence(flow, i, scope, place) => SequenceWithin(m, flow, i, scope, place, r);
        case Repeating(flow, i, k, count, scope, place) =>
          RepeatWithin(m, flow, i, k, count, scope, place, r, HeaviestTarget(c.p, c.rank, flow, i, 0));
      }
      var o := Finish(c, top, r);
      if o.Done? { ResumeKeepsLog(c, frames[..|frames| - 1], o.runner); }
    }
  }

  ghost function TotalWeight(sc: Scenario, rank: map<string, map<string, nat>>, names: seq<string>): nat
    requires Ranks(sc, rank) && forall a :: a in names ==> a in Addresses(sc.actors)
  {
    if names == [] then 0
    else Weight(ActorAt(sc, names[0]).program, rank[names[0]]) + TotalWeight(sc, rank, names[1..])
  }

  ghost function OwnTotal(moves: seq<Move>, names: seq<string>): nat {
    if names == [] then 0 else |Own(moves, names[0])| + OwnTotal(moves, names[1..])
  }

  /** Each move belongs to exactly one actor, so the actors' own steps add up to all of them. */
  lemma {:induction false} OwnAddsUp(moves: seq<Move>, names: seq<string>)
    requires Distinct(names) && forall i :: 0 <= i < |moves| ==> moves[i].actor in names
    ensures OwnTotal(moves, names) == |moves|
    decreases |moves|
  {
    if moves == [] {
      NothingOwned(names);
    } else {
      var front, last := moves[..|moves| - 1], moves[|moves| - 1];
      OwnAddsUp(front, names);
      OneMore(front, last, names);
      assert moves == front + [last];
    }
  }

  lemma {:induction false} NothingOwned(names: seq<string>)
    ensures OwnTotal([], names) == 0
    decreases |names|
  {
    if names != [] { NothingOwned(names[1..]); }
  }

  lemma {:induction false} OneMore(front: seq<Move>, last: Move, names: seq<string>)
    requires Distinct(names)
    ensures OwnTotal(front + [last], names) == OwnTotal(front, names) + (if last.actor in names then 1 else 0)
    decreases |names|
  {
    if names != [] {
      OneMore(front, last, names[1..]);
      assert (front + [last])[..|front|] == front;
      assert last.actor == names[0] ==> last.actor !in names[1..];
    }
  }

  lemma {:induction false} OwnWithin(w: World, sc: Scenario, rank: map<string, map<string, nat>>, cfg: Config, names: seq<string>)
    requires ConfigOK(sc, cfg) && Ranks(sc, rank) && AllFollow(w, sc, rank, cfg) && forall a :: a in names ==> a in Addresses(sc.actors)
    ensures OwnTotal(cfg.moves, names) <= TotalWeight(sc, rank, names)
    decreases |names|
  {
    hide AllFollow, ConfigOK, Own, Weight;
    if names != [] {
      ActorWithinWeight(w, sc, rank, cfg, names[0]);
      OwnWithin(w, sc, rank, cfg, names[1..]);
    }
  }

  /** A run over a scenario whose weights sum below the selection ceiling can never be cut short by it. */
  lemma LightScenariosNeverHitTheLimit(w: World, sc: Scenario, q: Request, rank: map<string, map<string, nat>>, expected: Option<Schedule>)
    requires ValidScenario(sc) && Ranks(sc, rank)
    requires TotalWeight(sc, rank, Addresses(sc.actors)) < MAX_SELECTIONS
    ensures ConfigOK(sc, Initial(sc))
    ensures var last := Last(w, sc, q, Initial(sc), expected);
            |last.decisions| <= TotalWeight(sc, rank, Addresses(sc.actors)) < MAX_SELECTIONS
  {
    hide ConfigOK, Last;
    LastFollows(w, sc, q, rank, expected);
    var last := Last(w, sc, q, Initial(sc), expected);
    OwnWithin(w, sc, rank, last, Addresses(sc.actors));
    forall i | 0 <= i < |last.moves| ensures last.moves[i].actor in Addresses(sc.actors) {
      assert EntrySound(w, sc, q, last, i) by { var _ := last.runner.history[i]; }
    }
    OwnAddsUp(last.moves, Addresses(sc.actors));
  }
}
