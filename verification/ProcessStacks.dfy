/**
  What processes and terminals amount to: three stacks of processes, one a terminal, whose
  top runs or is switched out while the processes below wait for the one they executed.
  Ticks go round the terminals, execute pushes and halt pops.
 */
module ProcessStacks {
  import Bitmap

  const NUM_TERM := 3
  const MAX_PROCESS := 6
  const NUM_FD := 8
  const STDIN_OPS := 0
  const STDOUT_OPS := 1
  const M8 := 0x80_0000
  const K8 := 0x2000

  // The stack and frame pointers that one context switch saves and another loads.
  datatype Ctx = Ctx(esp: int, ebp: int)

  datatype Fd = Fd(inUse: bool, ops: int, inode: int, pos: int)

  datatype Pcb = Pcb(pid: int, parent: int, ctx: Ctx, esp0: int, args: string, fds: seq<Fd>)

  /** get_pcb_ptr. */
  function PcbAddr(pid: int): int {
    M8 - (pid + 1) * K8
  }

  /** The kernel stack of a process starts at the high end of the 8 KB that its PCB lies in. */
  function StackTop(pid: int): int {
    PcbAddr(pid) + K8 - 4
  }

  /** `at` gives the terminal and the height of every live process. */
  datatype Stacks = Stacks(s: seq<seq<Pcb>>, running: int, at: map<int, (int, int)>)

  ghost predicate FrameOk(a: Stacks, t: int, i: int)
    requires 0 <= t < |a.s| && 0 <= i < |a.s[t]|
  {
    var pcb := a.s[t][i];
    && pcb.pid in a.at && a.at[pcb.pid] == (t, i)
    && pcb.parent == (if i == 0 then -1 else a.s[t][i - 1].pid)
    && pcb.esp0 == StackTop(pcb.pid)
    && |pcb.fds| == NUM_FD
  }

  /** Every process is in one place of one stack, and its parent is the process below it. */
  ghost predicate StacksOk(a: Stacks) {
    && |a.s| == NUM_TERM && 0 <= a.running < NUM_TERM
    && (forall t, i {:trigger FrameOk(a, t, i)} :: 0 <= t < NUM_TERM && 0 <= i < |a.s[t]| ==> FrameOk(a, t, i))
    && (forall p {:trigger a.at[p]} :: p in a.at ==>
          && 0 <= p < MAX_PROCESS
          && 0 <= a.at[p].0 < NUM_TERM && 0 <= a.at[p].1 < |a.s[a.at[p].0]|
          && a.s[a.at[p].0][a.at[p].1].pid == p)
  }

  function Top(st: seq<Pcb>): Pcb
    requires st != []
  {
    st[|st| - 1]
  }

  function TopPid(st: seq<Pcb>): int {
    if st == [] then -1 else Top(st).pid
  }

  datatype Event =
    | Tick(ctx: Ctx)
    | Execute(ctx: Ctx, loads: bool, args: string)
    | Halt(status: int)
    | Open(found: bool, ops: int, inode: int)
    | Close(fd: int)

  datatype Outcome =
    | Started(pid: int)               // a new process enters user mode
    | Switched(ctx: Ctx)              // a tick resumes a process
    | Resumed(ctx: Ctx, ret: int)     // an execute returns in the parent
    | Returned(ret: int)              // the call returns to its caller
    | Stuck                           // no process to start or to resume

  ghost function FreePid(a: Stacks): int {
    Bitmap.Lowest(a.at.Keys, 0, MAX_PROCESS)
  }

  /** A process just created: its descriptors 0 and 1 are open and no others. */
  ghost predicate IsFresh(pcb: Pcb, pid: int, parent: int, args: string) {
    && pcb.pid == pid && pcb.parent == parent && pcb.esp0 == StackTop(pid) && pcb.args == args
    && |pcb.fds| == NUM_FD
    && pcb.fds[0] == Fd(true, STDIN_OPS, -1, 0) && pcb.fds[1] == Fd(true, STDOUT_OPS, -1, 0)
    && (forall i :: 2 <= i < NUM_FD ==> !pcb.fds[i].inUse)
  }

  ghost function SaveTop(a: Stacks, ctx: Ctx): Stacks
    requires 0 <= a.running < |a.s|
  {
    var st := a.s[a.running];
    if st == [] then a else a.(s := a.s[a.running := st[|st| - 1 := Top(st).(ctx := ctx)]])
  }

  ghost function Push(a: Stacks, t: int, pcb: Pcb): Stacks
    requires 0 <= t < |a.s|
  {
    a.(s := a.s[t := a.s[t] + [pcb]], at := a.at[pcb.pid := (t, |a.s[t]|)], running := t)
  }

  ghost function Pop(a: Stacks): Stacks
    requires 0 <= a.running < |a.s| && a.s[a.running] != []
  {
    var st := a.s[a.running];
    a.(s := a.s[a.running := st[..|st| - 1]], at := a.at - {Top(st).pid})
  }

  ghost function WithFds(a: Stacks, fds: seq<Fd>): Stacks
    requires 0 <= a.running < |a.s| && a.s[a.running] != []
  {
    var st := a.s[a.running];
    a.(s := a.s[a.running := st[|st| - 1 := Top(st).(fds := fds)]])
  }

  function NextTerm(t: int): int {
    (t + 1) % NUM_TERM
  }

  /** The lowest free descriptor from `i` on, or -1. */
  function FreeFd(fds: seq<Fd>, i: nat): (r: int)
    ensures r == -1 || (i <= r < |fds| && !fds[r].inUse)
    ensures forall j :: i <= j < (if r == -1 then |fds| else r) ==> fds[j].inUse
    decreases |fds| - i
  {
    if i >= |fds| then -1 else if !fds[i].inUse then i else FreeFd(fds, i + 1)
  }

  /** One step.  `pcb` is the new process, where the step creates one.  A tick that has a base
      shell to start but no free process ends in no stacks at all. */
  ghost predicate Step(a: Stacks, e: Event, pcb: Pcb, b: Stacks, out: Outcome)
    requires StacksOk(a) && (e.Tick? || a.s[a.running] != [])
  {
    match e
    case Tick(ctx) =>
      var saved, t := SaveTop(a, ctx), NextTerm(a.running);
      if saved.s[t] != [] then b == saved.(running := t) && out == Switched(Top(saved.s[t]).ctx)
      else if FreePid(a) == -1 then out == Stuck
      else IsFresh(pcb, FreePid(a), -1, "") && b == Push(saved, t, pcb) && out == Started(pcb.pid)
    case Execute(ctx, loads, args) =>
      if !loads then b == a && out == Returned(-1)
      else if FreePid(a) == -1 then b == a && out == Returned(0)
      else IsFresh(pcb, FreePid(a), TopPid(a.s[a.running]), args)
           && b == Push(SaveTop(a, ctx), a.running, pcb) && out == Started(pcb.pid)
    case Halt(status) =>
      var popped := Pop(a);
      if popped.s[a.running] != [] then
        b == popped && out == Resumed(Top(popped.s[a.running]).ctx, if status == 255 then 256 else status)
      else
        IsFresh(pcb, FreePid(popped), -1, "") && b == Push(popped, a.running, pcb) && out == Started(pcb.pid)
    case Open(found, ops, inode) =>
      var fds := Top(a.s[a.running]).fds;
      var i := FreeFd(fds, 2);
      if !found || i == -1 then b == a && out == Returned(-1)
      else b == WithFds(a, fds[i := Fd(true, ops, inode, 0)]) && out == Returned(i)
    case Close(fd) =>
      var fds := Top(a.s[a.running]).fds;
      if fd < 2 || fd >= |fds| || !fds[fd].inUse then b == a && out == Returned(-1)
      else b == WithFds(a, fds[fd := fds[fd].(inUse := false)]) && out == Returned(0)
  }

  // ----- what every step keeps

  lemma SaveKeeps(a: Stacks, ctx: Ctx)
    requires StacksOk(a)
    ensures StacksOk(SaveTop(a, ctx))
    ensures SaveTop(a, ctx).at == a.at && forall t :: 0 <= t < NUM_TERM ==> |SaveTop(a, ctx).s[t]| == |a.s[t]|
  {
    var b := SaveTop(a, ctx);
    forall t, i | 0 <= t < NUM_TERM && 0 <= i < |b.s[t]|
      ensures FrameOk(b, t, i)
    {
      assert FrameOk(a, t, i);
    }
  }

  lemma PushKeeps(a: Stacks, t: int, pcb: Pcb, args: string)
    requires StacksOk(a) && 0 <= t < NUM_TERM && pcb.pid !in a.at && 0 <= pcb.pid < MAX_PROCESS
    requires IsFresh(pcb, pcb.pid, TopPid(a.s[t]), args)
    ensures StacksOk(Push(a, t, pcb))
  {
    var b := Push(a, t, pcb);
    forall u, i | 0 <= u < NUM_TERM && 0 <= i < |b.s[u]|
      ensures FrameOk(b, u, i)
    {
      if (u, i) != (t, |a.s[t]|) { assert FrameOk(a, u, i); }
    }
  }

  lemma PopKeeps(a: Stacks)
    requires StacksOk(a) && a.s[a.running] != []
    ensures StacksOk(Pop(a))
    ensures FreePid(Pop(a)) != -1
  {
    var b, t := Pop(a), a.running;
    var n := |a.s[t]| - 1;
    assert FrameOk(a, t, n);
    forall u, i | 0 <= u < NUM_TERM && 0 <= i < |b.s[u]|
      ensures FrameOk(b, u, i)
    {
      assert FrameOk(a, u, i);
    }
    forall p | p in b.at
      ensures a.at[p] != (t, n)
    {
    }
  }

  lemma WithFdsKeeps(a: Stacks, fds: seq<Fd>)
    requires StacksOk(a) && a.s[a.running] != [] && |fds| == NUM_FD
    ensures StacksOk(WithFds(a, fds))
  {
    var b := WithFds(a, fds);
    forall t, i | 0 <= t < NUM_TERM && 0 <= i < |b.s[t]|
      ensures FrameOk(b, t, i)
    {
      assert FrameOk(a, t, i);
    }
  }

  /** Every step that is not stuck keeps the stacks in order and leaves a process running. */
  lemma StepKeeps(a: Stacks, e: Event, pcb: Pcb, b: Stacks, out: Outcome)
    requires StacksOk(a) && (e.Tick? || a.s[a.running] != []) && Step(a, e, pcb, b, out) && out != Stuck
    ensures StacksOk(b) && b.s[b.running] != []
    ensures b.running == if e.Tick? then NextTerm(a.running) else a.running
  {
    match e
    case Tick(ctx) =>
      SaveKeeps(a, ctx);
      if SaveTop(a, ctx).s[NextTerm(a.running)] == [] {
        PushKeeps(SaveTop(a, ctx), NextTerm(a.running), pcb, "");
      } else {
        var saved := SaveTop(a, ctx);
        forall t, i | 0 <= t < NUM_TERM && 0 <= i < |b.s[t]|
          ensures FrameOk(b, t, i)
        {
          assert FrameOk(saved, t, i);
        }
      }
    case Execute(ctx, loads, args) =>
      if out.Started? {
        SaveKeeps(a, ctx);
        assert TopPid(SaveTop(a, ctx).s[a.running]) == TopPid(a.s[a.running]);
        PushKeeps(SaveTop(a, ctx), a.running, pcb, args);
      }
    case Halt(status) =>
      PopKeeps(a);
      if Pop(a).s[a.running] == [] { PushKeeps(Pop(a), a.running, pcb, ""); }
    case Open(found, ops, inode) =>
      if out != Returned(-1) {
        WithFdsKeeps(a, Top(b.s[b.running]).fds) by { assert FrameOk(a, a.running, |a.s[a.running]| - 1); }
      }
    case Close(fd) =>
      if out != Returned(-1) {
        WithFdsKeeps(a, Top(b.s[b.running]).fds) by { assert FrameOk(a, a.running, |a.s[a.running]| - 1); }
      }
  }

  /** A tick is stuck exactly when it comes to a terminal that has never run and all six
      processes are taken; no other step ever is. */
  lemma StuckExactly(a: Stacks, e: Event, pcb: Pcb, b: Stacks, out: Outcome)
    requires StacksOk(a) && (e.Tick? || a.s[a.running] != []) && Step(a, e, pcb, b, out)
    ensures out == Stuck <==>
              e.Tick? && a.s[NextTerm(a.running)] == [] && forall p :: 0 <= p < MAX_PROCESS ==> p in a.at
  {
  }

  /** The descriptors in use. */
  function InUse(fds: seq<Fd>): set<int> {
    set i | 0 <= i < |fds| && fds[i].inUse
  }

  /** Open gives a descriptor that was free, and it is then in use at the start of the file; Close of
      it succeeds once, and the descriptors in use are again what they were. */
  lemma OpenThenClose(a: Stacks, found: bool, ops: int, inode: int, p: Pcb, b: Stacks, q: Pcb, c: Stacks, r: Pcb,
                      d: Stacks, fd: int, closed: Outcome, again: Outcome)
    requires StacksOk(a) && a.s[a.running] != [] && Step(a, Open(found, ops, inode), p, b, Returned(fd)) && fd != -1
    requires StacksOk(b) && b.s[b.running] != [] && Step(b, Close(fd), q, c, closed)
    requires StacksOk(c) && c.s[c.running] != [] && Step(c, Close(fd), r, d, again)
    ensures found && 2 <= fd < NUM_FD && a.running == b.running == c.running
    ensures var was, now, after := Top(a.s[a.running]).fds, Top(b.s[b.running]).fds, Top(c.s[c.running]).fds;
            && |was| == |now| == |after| == NUM_FD
            && !was[fd].inUse && (forall j :: 2 <= j < fd ==> was[j].inUse)
            && now[fd].inUse && now[fd].ops == ops && now[fd].inode == inode && now[fd].pos == 0
            && (forall j :: 0 <= j < NUM_FD && j != fd ==> now[j] == was[j])
            && InUse(now) == InUse(was) + {fd} && InUse(after) == InUse(was)
    ensures closed == Returned(0) && again == Returned(-1) && d == c
  {
    assert FrameOk(a, a.running, |a.s[a.running]| - 1);
  }

  /** Open fails, and changes nothing, exactly when the file is not found or no descriptor is free. */
  lemma OpenFails(a: Stacks, found: bool, ops: int, inode: int, p: Pcb, b: Stacks, out: Outcome)
    requires StacksOk(a) && a.s[a.running] != [] && Step(a, Open(found, ops, inode), p, b, out)
    ensures |Top(a.s[a.running]).fds| == NUM_FD
    ensures out == Returned(-1) <==> !found || forall j :: 2 <= j < NUM_FD ==> Top(a.s[a.running]).fds[j].inUse
    ensures out == Returned(-1) ==> b == a
  {
    assert FrameOk(a, a.running, |a.s[a.running]| - 1);
  }

  ghost function PidsBelow(st: seq<Pcb>, n: nat): set<int>
    requires n <= |st|
  {
    set i | 0 <= i < n :: st[i].pid
  }

  lemma {:induction false} CountPids(a: Stacks, t: int, n: nat)
    requires StacksOk(a) && 0 <= t < NUM_TERM && n <= |a.s[t]|
    ensures |PidsBelow(a.s[t], n)| == n
  {
    if n > 0 {
      CountPids(a, t, n - 1);
      assert FrameOk(a, t, n - 1);
      forall i | 0 <= i < n - 1
        ensures a.s[t][i].pid != a.s[t][n - 1].pid
      {
        assert FrameOk(a, t, i);
      }
      assert PidsBelow(a.s[t], n) == PidsBelow(a.s[t], n - 1) + {a.s[t][n - 1].pid};
    }
  }

  /** No stack is higher than there are pids. */
  lemma HeightBound(a: Stacks, t: int)
    requires StacksOk(a) && 0 <= t < NUM_TERM
    ensures |a.s[t]| <= MAX_PROCESS
  {
    var pids := PidsBelow(a.s[t], |a.s[t]|);
    CountPids(a, t, |a.s[t]|);
    forall p | p in pids
      ensures p in {0, 1, 2, 3, 4, 5}
    {
      var i :| 0 <= i < |a.s[t]| && a.s[t][i].pid == p;
      assert FrameOk(a, t, i);
      assert a.at[p] == (t, i);
    }
    assert pids <= {0, 1, 2, 3, 4, 5} && |{0, 1, 2, 3, 4, 5} - pids| == 6 - |pids|;
  }

  // ----- runs

  datatype Run = Run(a: seq<Stacks>, e: seq<Event>, pcb: seq<Pcb>, out: seq<Outcome>)

  const BOOT := Stacks([[], [], []], 0, map[])

  /** A run from boot in which no tick is stuck; only a running process makes calls. */
  ghost predicate IsRun(r: Run) {
    && |r.a| == |r.e| + 1 && |r.pcb| == |r.e| && |r.out| == |r.e|
    && r.a[0] == BOOT
    && forall i {:trigger r.e[i]} :: 0 <= i < |r.e| && StacksOk(r.a[i]) ==>
         && (r.e[i].Tick? || r.a[i].s[r.a[i].running] != [])
         && Step(r.a[i], r.e[i], r.pcb[i], r.a[i + 1], r.out[i]) && r.out[i] != Stuck
  }

  function Ticks(es: seq<Event>, n: nat): nat
    requires n <= |es|
  {
    if n == 0 then 0 else Ticks(es, n - 1) + if es[n - 1].Tick? then 1 else 0
  }

  /** In every reachable state each live process is in one place of one stack, above its parent
      and over a base shell with parent -1, and after `n` ticks the running terminal is `n` mod 3. */
  lemma {:induction false} RunKeeps(r: Run, n: nat)
    requires IsRun(r) && n <= |r.e|
    ensures StacksOk(r.a[n])
    ensures r.a[n].running == Ticks(r.e, n) % NUM_TERM
    ensures n > 0 ==> r.a[n].s[r.a[n].running] != []
  {
    hide Step;
    if n > 0 {
      RunKeeps(r, n - 1);
      assert r.e[n - 1] == r.e[n - 1];
      StepKeeps(r.a[n - 1], r.e[n - 1], r.pcb[n - 1], r.a[n], r.out[n - 1]);
    }
  }

  /** What lies below the top of a terminal's stack, before and after a step, stays as it is:
      only the top process of the running terminal can change. */
  lemma StepKeepsBelow(a: Stacks, e: Event, pcb: Pcb, b: Stacks, out: Outcome, t: int, h: nat)
    requires StacksOk(a) && (e.Tick? || a.s[a.running] != []) && Step(a, e, pcb, b, out) && out != Stuck
    requires 0 <= t < NUM_TERM && h < |a.s[t]|
    requires |b.s| == NUM_TERM && h < |b.s[t]|
    ensures b.s[t][..h] == a.s[t][..h]
  {
  }

  /** A terminal that is not running does not change. */
  lemma StepKeepsOthers(a: Stacks, e: Event, pcb: Pcb, b: Stacks, out: Outcome, t: int)
    requires StacksOk(a) && (e.Tick? || a.s[a.running] != []) && Step(a, e, pcb, b, out) && out != Stuck
    requires 0 <= t < NUM_TERM && t != a.running && (a.s[t] != [] || !e.Tick?)
    ensures |b.s| == NUM_TERM && b.s[t] == a.s[t]
  {
  }

  lemma {:induction false} WaitingKept(r: Run, a: nat, b: nat, t: int, h: nat)
    requires IsRun(r) && a <= b <= |r.e| && 0 <= t < NUM_TERM
    requires forall i {:trigger r.a[i]} :: a <= i <= b ==> |r.a[i].s| == NUM_TERM && h < |r.a[i].s[t]|
    ensures r.a[b].s[t][..h] == r.a[a].s[t][..h]
    decreases b
  {
    if a < b {
      WaitingKept(r, a, b - 1, t, h);
      RunKeeps(r, b - 1);
      assert r.e[b - 1] == r.e[b - 1] && h < |r.a[b - 1].s[t]| && h < |r.a[b].s[t]|;
      StepKeepsBelow(r.a[b - 1], r.e[b - 1], r.pcb[b - 1], r.a[b], r.out[b - 1], t, h);
    }
  }

  /** Call and return.  Step `a` executes a child in terminal `t`, whose stack was `h` high, and
      until step `b` the child has not halted.  Then the parent's PCB is all that time what it
      was when its own execute saved the context, whatever ticks and calls the terminals made,
      and when the child halts, that context is what is loaded. */
  lemma CallReturns(r: Run, a: nat, b: nat, t: int, h: nat)
    requires IsRun(r) && a < b < |r.e|
    requires r.e[a].Execute? && r.out[a].Started? && |r.a[a].s| == NUM_TERM && t == r.a[a].running && 0 <= t < NUM_TERM
    requires h == |r.a[a].s[t]|
    requires forall i {:trigger r.a[i]} :: a < i <= b ==> |r.a[i].s| == NUM_TERM && h < |r.a[i].s[t]|
    ensures 0 < h
    ensures r.a[b].s[t][h - 1] == Top(r.a[a].s[t]).(ctx := r.e[a].ctx)
    ensures r.e[b].Halt? && r.a[b].running == t && |r.a[b].s[t]| == h + 1 ==>
              r.out[b] == Resumed(r.e[a].ctx, if r.e[b].status == 255 then 256 else r.e[b].status)
  {
    RunKeeps(r, a);
    RunKeeps(r, b);
    assert r.e[a] == r.e[a] && r.e[b] == r.e[b];
    assert h < |r.a[a + 1].s[t]|;
    WaitingKept(r, a + 1, b, t, h);
    assert r.a[b].s[t][..h][h - 1] == r.a[a + 1].s[t][..h][h - 1];
  }

  lemma {:induction false} SwitchedOutKept(r: Run, a: nat, b: nat, t: int)
    requires IsRun(r) && a <= b <= |r.e| && 0 <= t < NUM_TERM
    requires |r.a[a].s| == NUM_TERM && r.a[a].s[t] != []
    requires forall i {:trigger r.a[i]} :: a <= i < b ==> r.a[i].running != t
    ensures |r.a[b].s| == NUM_TERM && r.a[b].s[t] == r.a[a].s[t]
    decreases b
  {
    if a < b {
      SwitchedOutKept(r, a, b - 1, t);
      RunKeeps(r, b - 1);
      assert r.e[b - 1] == r.e[b - 1] && r.a[b - 1].running != t;
      StepKeepsOthers(r.a[b - 1], r.e[b - 1], r.pcb[b - 1], r.a[b], r.out[b - 1], t);
    }
  }

  /** A tick saves the running context in the top PCB of the terminal it leaves, and loads
      what the top PCB of the terminal it comes to holds. */
  lemma TickSwitches(a: Stacks, ctx: Ctx, pcb: Pcb, b: Stacks, out: Outcome)
    requires StacksOk(a) && Step(a, Tick(ctx), pcb, b, out) && out != Stuck
    ensures StacksOk(b) && b.running == NextTerm(a.running)
    ensures var st := a.s[a.running];
            st != [] ==> b.s[a.running] == st[|st| - 1 := Top(st).(ctx := ctx)]
    ensures a.s[b.running] != [] ==> b.s[b.running] == a.s[b.running] && out == Switched(Top(a.s[b.running]).ctx)
  {
    StepKeeps(a, Tick(ctx), pcb, b, out);
  }

  /** A terminal switched out by tick `a` is as it was until tick `b` comes back to it, and then
      resumes with the context saved at tick `a`. */
  lemma SwitchReturns(r: Run, a: nat, b: nat, t: int)
    requires IsRun(r) && a < b < |r.e| && r.e[a].Tick? && r.e[b].Tick?
    requires |r.a[a].s| == NUM_TERM && t == r.a[a].running && 0 <= t < NUM_TERM && r.a[a].s[t] != []
    requires (forall i {:trigger r.a[i]} :: a < i <= b ==> r.a[i].running != t) && r.a[b + 1].running == t
    ensures var was := r.a[a].s[t];
            |r.a[b].s| == NUM_TERM && r.a[b].s[t] == was[|was| - 1 := Top(was).(ctx := r.e[a].ctx)]
    ensures r.out[b] == Switched(r.e[a].ctx)
  {
    RunKeeps(r, a);
    RunKeeps(r, b);
    assert r.e[a] == r.e[a] && r.e[b] == r.e[b];
    TickSwitches(r.a[a], r.e[a].ctx, r.pcb[a], r.a[a + 1], r.out[a]);
    SwitchedOutKept(r, a + 1, b, t);
    TickSwitches(r.a[b], r.e[b].ctx, r.pcb[b], r.a[b + 1], r.out[b]);
  }

  lemma StepNeverEmpties(a: Stacks, e: Event, pcb: Pcb, b: Stacks, out: Outcome, t: int)
    requires StacksOk(a) && (e.Tick? || a.s[a.running] != []) && Step(a, e, pcb, b, out) && out != Stuck
    requires 0 <= t < NUM_TERM && a.s[t] != []
    ensures |b.s| == NUM_TERM && b.s[t] != []
  {
    StepKeeps(a, e, pcb, b, out);
    if t != a.running {
      StepKeepsOthers(a, e, pcb, b, out, t);
    }
  }

  /** A terminal that has started never becomes empty: halting its base shell starts another. */
  lemma {:induction false} StartedStays(r: Run, a: nat, b: nat, t: int)
    requires IsRun(r) && a <= b <= |r.e| && 0 <= t < NUM_TERM && |r.a[a].s| == NUM_TERM && r.a[a].s[t] != []
    ensures |r.a[b].s| == NUM_TERM && r.a[b].s[t] != []
    decreases b
  {
    if a < b {
      StartedStays(r, a, b - 1, t);
      RunKeeps(r, b - 1);
      assert r.e[b - 1] == r.e[b - 1];
      StepNeverEmpties(r.a[b - 1], r.e[b - 1], r.pcb[b - 1], r.a[b], r.out[b - 1], t);
    }
  }

  /** Two live processes never share memory: neither the 8 KB of PCB and kernel stack, below
      the 8 MB line, nor the 4 MB page frame of the program. */
  lemma Isolated(a: Stacks, p: int, q: int)
    requires StacksOk(a) && p in a.at && q in a.at && p != q
    ensures PcbAddr(p) + K8 <= PcbAddr(q) || PcbAddr(q) + K8 <= PcbAddr(p)
    ensures StackTop(p) == M8 - p * K8 - 4
    ensures PcbAddr(p) < StackTop(p) < PcbAddr(p) + K8 <= M8 && M8 - MAX_PROCESS * K8 <= PcbAddr(p)
    ensures 2 <= p + 2 < 8 && p + 2 != q + 2
  {
    assert a.at[p] == a.at[p] && a.at[q] == a.at[q];
  }

  // ----- a run that gets stuck

  function Proc(p: int): Pcb {
    Pcb(p, p - 1, Ctx(0, 0), StackTop(p), "",
        [Fd(true, STDIN_OPS, -1, 0), Fd(true, STDOUT_OPS, -1, 0)] + seq(NUM_FD - 2, _ => Fd(false, 0, 0, 0)))
  }

  /** `n` processes in terminal 1, each executed by the one before, and none elsewhere. */
  ghost function Crowd(n: nat): Stacks {
    Stacks([[], seq(n, i => Proc(i)), []], 1, map p | 0 <= p < n :: (1, p))
  }

  lemma CrowdOk(n: nat)
    requires n <= MAX_PROCESS
    ensures StacksOk(Crowd(n)) && FreePid(Crowd(n)) == if n < MAX_PROCESS then n else -1
  {
    var a := Crowd(n);
    forall t, i | 0 <= t < NUM_TERM && 0 <= i < |a.s[t]|
      ensures FrameOk(a, t, i)
    {
      assert a.s[1][i] == Proc(i);
    }
  }

  lemma CrowdGrows(n: nat)
    requires 0 < n < MAX_PROCESS
    ensures StacksOk(Crowd(n)) && Step(Crowd(n), Execute(Ctx(0, 0), true, ""), Proc(n), Crowd(n + 1), Started(n))
  {
    CrowdOk(n);
    var a, b := Crowd(n), Crowd(n + 1);
    assert SaveTop(a, Ctx(0, 0)).s[1] == a.s[1];
    assert SaveTop(a, Ctx(0, 0)).s == a.s;
    assert b.s[1] == a.s[1] + [Proc(n)];
    assert b.at == a.at[n := (1, n)];
  }

  lemma CrowdStarts()
    ensures StacksOk(BOOT) && Step(BOOT, Tick(Ctx(0, 0)), Proc(0), Crowd(1), Started(0))
  {
    assert FreePid(BOOT) == 0;
    assert Crowd(1).s[1] == BOOT.s[1] + [Proc(0)];
    assert Crowd(1).s == Push(BOOT, 1, Proc(0)).s;
    assert Crowd(1).at == Push(BOOT, 1, Proc(0)).at;
  }

  /** The first tick starts a shell in terminal 1, and five programs execute one another there. */
  ghost function CrowdRun(): Run {
    Run(seq(7, i => if i <= 0 then BOOT else Crowd(i)),
        seq(6, i => if i == 0 then Tick(Ctx(0, 0)) else Execute(Ctx(0, 0), true, "")),
        seq(6, i => Proc(i)), seq(6, i => Started(i)))
  }

  lemma CrowdSteps(i: int)
    requires 0 <= i < 6
    ensures var r := CrowdRun();
            && StacksOk(r.a[i]) && (r.e[i].Tick? || r.a[i].s[r.a[i].running] != [])
            && Step(r.a[i], r.e[i], r.pcb[i], r.a[i + 1], r.out[i])
  {
    if i == 0 { CrowdStarts(); } else { CrowdGrows(i); }
  }

  /** All six processes are then taken, and the next tick, to terminal 2, is stuck. */
  lemma CrowdGetsStuck(ctx: Ctx, pcb: Pcb, b: Stacks, out: Outcome)
    ensures IsRun(CrowdRun()) && StacksOk(CrowdRun().a[6])
    ensures Step(CrowdRun().a[6], Tick(ctx), pcb, b, out) ==> out == Stuck
  {
    var r := CrowdRun();
    forall i | 0 <= i < 6
      ensures StacksOk(r.a[i]) && (r.e[i].Tick? || r.a[i].s[r.a[i].running] != [])
      ensures Step(r.a[i], r.e[i], r.pcb[i], r.a[i + 1], r.out[i])
    {
      CrowdSteps(i);
    }
    hide Step, StacksOk, Crowd, Proc;
    CrowdOk(6);
    if Step(r.a[6], Tick(ctx), pcb, b, out) { CrowdIsFull(ctx, pcb, b, out); }
  }

  lemma CrowdIsFull(ctx: Ctx, pcb: Pcb, b: Stacks, out: Outcome)
    requires StacksOk(Crowd(6)) && FreePid(Crowd(6)) == -1 && Step(Crowd(6), Tick(ctx), pcb, b, out)
    ensures out == Stuck
  {
  }
}
