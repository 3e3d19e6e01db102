/** Control flow of the route script interpreter: a structured semantics, the form that
    steers by run flags, and the form that leaves with a long jump. */
module RouteScript {
  import opened Options

  const ROUTE_MAX_REC_LEV := 100
  const E_UNSPEC := -1
  const E_BUG := -5
  const E_CFG := -6

  datatype Code = LastRetcode | Number(n: int)

  /** Script actions. An empty list stands for a missing one; a missing condition, route
      number or function is one of the wrong type. */
  datatype Action =
    | Drop(code: Code, exit: bool, ret: bool)
    | If(cond: Option<int>, thn: seq<Action>, els: seq<Action>)
    | Route(n: Option<int>)
    | Module(f: Option<int>)

  /** The route table, and what conditions and module functions return given the module
      calls made so far (and, for conditions, the last return code). */
  datatype Env = Env(
    routes: seq<seq<Action>>,
    cond: (int, seq<int>, int) -> int,
    call: (int, seq<int>) -> int)

  // ----- structured semantics

  /** How an action ends: going on, leaving the route, or leaving the script. */
  datatype Flow = Normal | Return | Exit

  /** The last return code and the module calls made. */
  datatype World = World(last: int, log: seq<int>)

  datatype Result = Result(flow: Flow, ret: int, w: World)

  function CodeOf(c: Code, last: int): int {
    if c.LastRetcode? then last else c.n
  }

  function Exec(env: Env, a: Action, lev: nat, w: World): Result
    requires lev <= ROUTE_MAX_REC_LEV
    decreases ROUTE_MAX_REC_LEV - lev, 1
  {
    match a
    case Drop(code, exit, ret) =>
      Result(if exit then Exit else if ret then Return else Normal, CodeOf(code, w.last), w)
    case If(cond, thn, els) =>
      if cond.None? then Result(Normal, E_BUG, w) else
      var branch := if env.cond(cond.value, w.log, w.last) > 0 then thn else els;
      if branch == [] then Result(Normal, 1, w) else Run(env, branch, lev, w)
    case Route(n) =>
      if n.None? then Result(Normal, E_BUG, w)
      else if !(0 <= n.value < |env.routes|) then Result(Normal, E_CFG, w)
      else
        var r := Run(env, env.routes[n.value], lev, w);
        Result(if r.flow.Return? then Normal else r.flow, r.ret, r.w.(last := r.ret))
    case Module(f) =>
      if f.None? then Result(Normal, E_BUG, w) else
      var ret := env.call(f.value, w.log);
      Result(if ret == 0 then Exit else Normal, ret, World(ret, w.log + [f.value]))
  }

  /** The actions of a list from number `i` on; a list that is empty returns 1. */
  function ExecList(env: Env, list: seq<Action>, i: nat, lev: nat, w: World): Result
    requires lev <= ROUTE_MAX_REC_LEV
    decreases ROUTE_MAX_REC_LEV - lev, 2, |list| - i
  {
    if i >= |list| then Result(Normal, 1, w) else
    var r := Exec(env, list[i], lev, w);
    if r.flow.Normal? && i + 1 < |list| then ExecList(env, list, i + 1, lev, r.w) else r
  }

  /** A list one level down, unless that is too deep. */
  function Run(env: Env, list: seq<Action>, lev: nat, w: World): Result
    requires lev <= ROUTE_MAX_REC_LEV
    decreases ROUTE_MAX_REC_LEV - lev, 0
  {
    if lev + 1 > ROUTE_MAX_REC_LEV then Result(Normal, E_UNSPEC, w) else ExecList(env, list, 0, lev + 1, w)
  }

  /** A whole script: its return code, the module calls, and whether the on-break handlers run. */
  datatype Report = Report(ret: int, log: seq<int>, onbreak: bool)

  function Script(env: Env, list: seq<Action>, log: seq<int>): Report {
    var r := Run(env, list, 0, World(0, log));
    Report(r.ret, r.w.log, r.ret == 0)
  }

  // ----- what return and exit mean

  lemma {:induction false} ExecSuffix(env: Env, a: seq<Action>, b: seq<Action>, i: nat, lev: nat, w: World)
    requires lev <= ROUTE_MAX_REC_LEV && i < |b|
    ensures ExecList(env, a + b, |a| + i, lev, w) == ExecList(env, b, i, lev, w)
    decreases |b| - i
  {
    assert (a + b)[|a| + i] == b[i];
    var r := Exec(env, b[i], lev, w);
    if r.flow.Normal? && i + 1 < |b| {
      ExecSuffix(env, a, b, i + 1, lev, r.w);
    }
  }

  /** A list in two halves: when the first half returns or exits, the second never runs. */
  lemma {:induction false} Sequencing(env: Env, a: seq<Action>, b: seq<Action>, i: nat, lev: nat, w: World)
    requires lev <= ROUTE_MAX_REC_LEV && i < |a| && b != []
    ensures
      var r := ExecList(env, a, i, lev, w);
      ExecList(env, a + b, i, lev, w) == if r.flow.Normal? then ExecList(env, b, 0, lev, r.w) else r
    decreases |a| - i
  {
    assert (a + b)[i] == a[i];
    var r := Exec(env, a[i], lev, w);
    if r.flow.Normal? {
      if i + 1 < |a| {
        Sequencing(env, a, b, i + 1, lev, r.w);
      } else {
        ExecSuffix(env, a, b, 0, lev, r.w);
      }
    }
  }

  /** A return in a route ends that route and nothing else: what stands behind it there is
      dead, and the caller goes on with its code as the last return code. */
  lemma ReturnEndsOneRoute(env: Env, n: nat, pre: seq<Action>, code: Code, post: seq<Action>, lev: nat, w: World)
    requires n < |env.routes| && env.routes[n] == pre + [Drop(code, false, true)] + post
    requires lev < ROUTE_MAX_REC_LEV && ExecList(env, pre, 0, lev + 1, w).flow.Normal?
    ensures
      var r := ExecList(env, pre, 0, lev + 1, w);
      var ret := CodeOf(code, r.w.last);
      Exec(env, Route(Some(n)), lev, w) == Result(Normal, ret, r.w.(last := ret))
  {
    var tail := [Drop(code, false, true)] + post;
    assert env.routes[n] == pre + tail;
    if pre == [] {
      assert pre + tail == tail && tail[0] == Drop(code, false, true);
      assert ExecList(env, tail, 0, lev + 1, w) == Result(Return, CodeOf(code, w.last), w);
      assert ExecList(env, pre, 0, lev + 1, w).w == w;
    } else {
      Sequencing(env, pre, tail, 0, lev + 1, w);
    }
  }

  /** An exit anywhere below ends the whole script. */
  lemma ExitEndsScript(env: Env, a: seq<Action>, b: seq<Action>, log: seq<int>)
    requires a != [] && Run(env, a, 0, World(0, log)).flow.Exit?
    ensures Script(env, a + b, log) == Script(env, a, log)
  {
    if b == [] {
      assert a + b == a;
    } else {
      Sequencing(env, a, b, 0, 1, World(0, log));
    }
  }

  /** A condition chooses the list that runs: what the other list is makes no difference, and
      the outcome is that of the chosen one, one level down; there is none to run if it is
      missing. */
  lemma IfChooses(env: Env, c: int, list: seq<Action>, other: seq<Action>, lev: nat, w: World)
    requires lev < ROUTE_MAX_REC_LEV
    ensures
      var holds := env.cond(c, w.log, w.last) > 0;
      var a := if holds then If(Some(c), list, other) else If(Some(c), other, list);
      Exec(env, a, lev, w) == if list == [] then Result(Normal, 1, w) else ExecList(env, list, 0, lev + 1, w)
  {
  }

  /** A module function is called once; if it returns 0 the script ends there with the on-break
      handlers, and otherwise it goes on with what it returned as the last return code. */
  lemma ModuleDecides(env: Env, f: int, rest: seq<Action>, log: seq<int>)
    ensures
      var ret := env.call(f, log);
      var script := Script(env, [Module(Some(f))] + rest, log);
      if ret == 0 then script == Report(0, log + [f], true)
      else if rest == [] then script == Report(ret, log + [f], false)
      else
        var r := ExecList(env, rest, 0, 1, World(ret, log + [f]));
        script == Report(r.ret, r.w.log, r.ret == 0)
  {
    var first := [Module(Some(f))];
    assert ExecList(env, first, 0, 1, World(0, log)) == Exec(env, first[0], 1, World(0, log));
    if rest == [] {
      assert first + rest == first;
    } else {
      Sequencing(env, first, rest, 0, 1, World(0, log));
    }
  }

  /** Module calls once made stay made, in their order. */
  lemma {:induction false} CallsStay(env: Env, a: Action, lev: nat, w: World)
    requires lev <= ROUTE_MAX_REC_LEV
    ensures w.log <= Exec(env, a, lev, w).w.log
    decreases ROUTE_MAX_REC_LEV - lev, 1
  {
    match a
    case Drop(_, _, _) =>
    case If(cond, thn, els) =>
      CallsStayRun(env, thn, lev, w);
      CallsStayRun(env, els, lev, w);
    case Route(n) =>
      if n.Some? && 0 <= n.value < |env.routes| { CallsStayRun(env, env.routes[n.value], lev, w); }
    case Module(_) =>
  }

  lemma {:induction false} CallsStayList(env: Env, list: seq<Action>, i: nat, lev: nat, w: World)
    requires lev <= ROUTE_MAX_REC_LEV
    ensures w.log <= ExecList(env, list, i, lev, w).w.log
    decreases ROUTE_MAX_REC_LEV - lev, 2, |list| - i
  {
    if i < |list| {
      CallsStay(env, list[i], lev, w);
      CallsStayList(env, list, i + 1, lev, Exec(env, list[i], lev, w).w);
    }
  }

  lemma {:induction false} CallsStayRun(env: Env, list: seq<Action>, lev: nat, w: World)
    requires lev <= ROUTE_MAX_REC_LEV
    ensures w.log <= Run(env, list, lev, w).w.log
    decreases ROUTE_MAX_REC_LEV - lev, 0
  {
    if lev < ROUTE_MAX_REC_LEV { CallsStayList(env, list, 0, lev + 1, w); }
  }

  // ----- the form with run flags only

  /** `struct run_act_ctx`, with the module calls made so far. */
  datatype Ctx = Ctx(recLev: nat, exit: bool, ret: bool, last: int, log: seq<int>)

  function FlagAction(env: Env, a: Action, h: Ctx): (r: (Ctx, int))
    requires h.recLev <= ROUTE_MAX_REC_LEV
    ensures r.0.recLev == h.recLev
    decreases ROUTE_MAX_REC_LEV - h.recLev, 1
  {
    match a
    case Drop(code, exit, ret) =>
      (h.(exit := h.exit || exit, ret := h.ret || ret), CodeOf(code, h.last))
    case If(cond, thn, els) =>
      if cond.None? then (h, E_BUG) else
      var v := env.cond(cond.value, h.log, h.last);
      if h.exit then (h, 0) else
      var h1 := h.(ret := false);
      if v > 0 then if thn != [] then FlagRun(env, thn, h1) else (h1, 1)
      else if els != [] then FlagRun(env, els, h1) else (h1, 1)
    case Route(n) =>
      if n.None? then (h, E_BUG)
      else if !(0 <= n.value < |env.routes|) then (h, E_CFG)
      else
        var (h1, ret) := FlagRun(env, env.routes[n.value], h);
        (h1.(last := ret, ret := false), ret)
    case Module(f) =>
      if f.None? then (h, E_BUG) else
      var ret := env.call(f.value, h.log);
      (h.(exit := h.exit || ret == 0, last := ret, log := h.log + [f.value]), ret)
  }

  /** The loop of `run_actions` from action `i` on, with the return code so far. */
  function FlagLoop(env: Env, list: seq<Action>, i: nat, h: Ctx, ret: int): (r: (Ctx, int))
    requires h.recLev <= ROUTE_MAX_REC_LEV
    ensures r.0.recLev == h.recLev
    decreases ROUTE_MAX_REC_LEV - h.recLev, 2, |list| - i
  {
    if i >= |list| then (h, ret) else
    var (h1, ret1) := FlagAction(env, list[i], h);
    if h1.ret || h1.exit then (h1, ret1) else FlagLoop(env, list, i + 1, h1, ret1)
  }

  function FlagRun(env: Env, list: seq<Action>, h: Ctx): (r: (Ctx, int))
    requires h.recLev <= ROUTE_MAX_REC_LEV
    ensures r.0.recLev == h.recLev
    decreases ROUTE_MAX_REC_LEV - h.recLev, 0
  {
    if h.recLev + 1 > ROUTE_MAX_REC_LEV then (h, E_UNSPEC) else
    var h1 := h.(recLev := h.recLev + 1);
    var h2 := if h1.recLev == 1 then h1.(exit := false, ret := false, last := 0) else h1;
    var (h3, ret) := FlagLoop(env, list, 0, h2, if list == [] then 1 else E_UNSPEC);
    (h3.(recLev := h.recLev), ret)
  }

  /** The flags and fields of a context say what the structured result says. */
  predicate Agrees(h: Ctx, ret: int, r: Result) {
    && ret == r.ret && h.log == r.w.log && h.last == r.w.last
    && (h.exit <==> r.flow.Exit?) && (!h.exit ==> (h.ret <==> r.flow.Return?))
  }

  /** No flag is set and the fields are those of the world. */
  predicate Clear(h: Ctx, w: World) {
    !h.exit && !h.ret && h.last == w.last && h.log == w.log
  }

  lemma {:induction false} FlagActionAgrees(env: Env, a: Action, h: Ctx, w: World)
    requires 1 <= h.recLev <= ROUTE_MAX_REC_LEV && Clear(h, w)
    ensures Agrees(FlagAction(env, a, h).0, FlagAction(env, a, h).1, Exec(env, a, h.recLev, w))
    decreases ROUTE_MAX_REC_LEV - h.recLev, 1
  {
    match a
    case Drop(_, _, _) =>
    case Module(_) =>
    case If(cond, thn, els) =>
      if cond.Some? {
        var branch := if env.cond(cond.value, w.log, w.last) > 0 then thn else els;
        assert h.(ret := false) == h;
        if branch != [] {
          FlagRunAgrees(env, branch, h, w);
        }
      }
    case Route(n) =>
      if n.Some? && 0 <= n.value < |env.routes| {
        FlagRunAgrees(env, env.routes[n.value], h, w);
      }
  }

  lemma {:induction false} FlagLoopAgrees(env: Env, list: seq<Action>, i: nat, h: Ctx, ret: int, w: World)
    requires 1 <= h.recLev <= ROUTE_MAX_REC_LEV && Clear(h, w) && i < |list|
    ensures Agrees(FlagLoop(env, list, i, h, ret).0, FlagLoop(env, list, i, h, ret).1,
                   ExecList(env, list, i, h.recLev, w))
    decreases ROUTE_MAX_REC_LEV - h.recLev, 2, |list| - i
  {
    FlagActionAgrees(env, list[i], h, w);
    var (h1, ret1) := FlagAction(env, list[i], h);
    var r := Exec(env, list[i], h.recLev, w);
    if r.flow.Normal? && i + 1 < |list| {
      FlagLoopAgrees(env, list, i + 1, h1, ret1, r.w);
    }
  }

  lemma {:induction false} FlagRunAgrees(env: Env, list: seq<Action>, h: Ctx, w: World)
    requires 1 <= h.recLev <= ROUTE_MAX_REC_LEV && Clear(h, w)
    ensures Agrees(FlagRun(env, list, h).0, FlagRun(env, list, h).1, Run(env, list, h.recLev, w))
    decreases ROUTE_MAX_REC_LEV - h.recLev, 0
  {
    if h.recLev + 1 <= ROUTE_MAX_REC_LEV && list != [] {
      FlagLoopAgrees(env, list, 0, h.(recLev := h.recLev + 1), E_UNSPEC, w);
    }
  }

  /** The outermost call in the flag-only build; whatever the context held before is reset. */
  function FlagScript(env: Env, list: seq<Action>, h: Ctx): Report
    requires h.recLev == 0
  {
    var (h1, ret) := FlagRun(env, list, h);
    Report(ret, h1.log, h1.recLev == 0 && ret == 0)
  }

  /** The flag-only build makes the same module calls and returns the same code as the
      structured semantics, for every script. */
  lemma FlagFormIsStructured(env: Env, list: seq<Action>, h: Ctx)
    requires h.recLev == 0
    ensures FlagScript(env, list, h) == Script(env, list, h.log)
  {
    var h1 := Ctx(1, false, false, 0, h.log);
    var ret0 := if list == [] then 1 else E_UNSPEC;
    var (h2, ret) := FlagLoop(env, list, 0, h1, ret0);
    assert h.(recLev := 1).(exit := false, ret := false, last := 0) == h1;
    assert FlagRun(env, list, h) == (h2.(recLev := 0), ret);
    if list != [] {
      FlagLoopAgrees(env, list, 0, h1, E_UNSPEC, World(0, h.log));
    }
  }

  // ----- the form that leaves with a long jump

  /** `struct run_act_ctx` as the default build uses it. A call that ends in a long jump
      reports `jumped`; its callers then do nothing more. */
  class RunActCtx {
    var recLev: nat
    var exitFlag: bool
    var returnFlag: bool
    var lastRetcode: int
    /** The module calls made so far. */
    var log: seq<int>

    constructor ()
      ensures recLev == 0 && log == []
    {
      recLev, exitFlag, returnFlag, lastRetcode, log := 0, false, false, 0, [];
    }

    ghost predicate IsClear(w: World)
      reads this
    {
      !exitFlag && !returnFlag && lastRetcode == w.last && log == w.log
    }

    /** The call ended as the structured semantics says: by a jump exactly when that exits,
        with its code saved, and otherwise with the return flag set exactly when it returns. */
    ghost predicate Ended(jumped: bool, ret: int, r: Result, lev: nat)
      reads this
    {
      && (jumped <==> r.flow.Exit?) && log == r.w.log
      && (jumped ==> lastRetcode == r.ret)
      && (!jumped ==> ret == r.ret && recLev == lev && !exitFlag && lastRetcode == r.w.last
                      && (returnFlag <==> r.flow.Return?))
    }

    method DoAction(env: Env, a: Action, ghost w: World) returns (ret: int, jumped: bool)
      requires 1 <= recLev <= ROUTE_MAX_REC_LEV && IsClear(w)
      modifies this
      ensures
        var r := Exec(env, a, old(recLev), w);
        if exitFlag && !jumped
        then r.flow.Exit? && ret == r.ret && log == r.w.log && recLev == old(recLev)
        else Ended(jumped, ret, r, old(recLev))
      decreases ROUTE_MAX_REC_LEV - recLev, 1
    {
      jumped := false;
      match a
      case Drop(code, exit, retf) =>
        ret := if code.LastRetcode? then lastRetcode else code.n;
        exitFlag := exitFlag || exit;
        returnFlag := returnFlag || retf;
      case If(cond, thn, els) =>
        if cond.None? {
          return E_BUG, false;
        }
        var v := env.cond(cond.value, log, lastRetcode);
        if exitFlag {
          return 0, false;
        }
        returnFlag := false;
        ret := 1;
        if v > 0 {
          if thn != [] {
            ret, jumped := RunActions(env, thn, w);
          }
        } else if els != [] {
          ret, jumped := RunActions(env, els, w);
        }
      case Route(n) =>
        if n.None? {
          return E_BUG, false;
        }
        if n.value < 0 || n.value >= |env.routes| {
          return E_CFG, false;
        }
        ret, jumped := RunActions(env, env.routes[n.value], w);
        if !jumped {
          lastRetcode := ret;
          returnFlag := false;
        }
      case Module(f) =>
        if f.None? {
          return E_BUG, false;
        }
        ret := env.call(f.value, log);
        log := log + [f.value];
        if ret == 0 {
          exitFlag := true;
        }
        lastRetcode := ret;
    }

    /** The loop over an action list at the current level. */
    method RunLoop(env: Env, list: seq<Action>, ghost w: World) returns (ret: int, jumped: bool)
      requires 1 <= recLev <= ROUTE_MAX_REC_LEV && IsClear(w)
      modifies this
      ensures Ended(jumped, ret, ExecList(env, list, 0, old(recLev), w), old(recLev))
      decreases ROUTE_MAX_REC_LEV - recLev, 2
    {
      ghost var lev, goal := recLev, ExecList(env, list, 0, recLev, w);
      ret, jumped := if list == [] then 1 else E_UNSPEC, false;
      var i := 0;
      ghost var now := w;
      while i < |list|
        invariant 0 <= i <= |list| && recLev == lev && IsClear(now) && !jumped
        invariant i < |list| ==> goal == ExecList(env, list, i, lev, now)
        invariant i == |list| ==> goal == Result(Normal, ret, now)
      {
        ghost var r := Exec(env, list[i], lev, now);
        ret, jumped := DoAction(env, list[i], now);
        if jumped {
          return;
        }
        if returnFlag || exitFlag {
          if exitFlag {
            lastRetcode := ret;
            jumped := true;
          }
          return;
        }
        now := r.w;
        i := i + 1;
      }
    }

    /** `run_actions` below the outermost level. */
    method RunActions(env: Env, list: seq<Action>, ghost w: World) returns (ret: int, jumped: bool)
      requires 1 <= recLev <= ROUTE_MAX_REC_LEV && IsClear(w)
      modifies this
      ensures Ended(jumped, ret, Run(env, list, old(recLev), w), old(recLev))
      decreases ROUTE_MAX_REC_LEV - recLev, 0
    {
      recLev := recLev + 1;
      if recLev > ROUTE_MAX_REC_LEV {
        recLev := recLev - 1;
        return E_UNSPEC, false;
      }
      ret, jumped := RunLoop(env, list, w);
      if !jumped {
        recLev := recLev - 1;
      }
    }

    /** The outermost `run_actions`: the default build, too, makes the module calls and
        returns the code of the structured semantics, and leaves the level at zero. */
    method RunScript(env: Env, list: seq<Action>) returns (report: Report)
      requires recLev == 0
      modifies this
      ensures report == Script(env, list, old(log)) && log == report.log && recLev == 0
    {
      recLev := 1;
      exitFlag, returnFlag, lastRetcode := false, false, 0;
      var ret, jumped := RunLoop(env, list, World(0, log));
      if jumped {
        recLev := 0;
        ret := lastRetcode;
      } else {
        recLev := recLev - 1;
      }
      report := Report(ret, log, recLev == 0 && ret == 0);
    }
  }
}
