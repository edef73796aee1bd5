/**
  The kernel's own records of its processes: one array of used pids, the PCBs at the low ends
  of 8 KB blocks below the 8 MB line, three terminals in a ring, and the pid, stack and page
  frame that are current.  Every step is proved to be a step of the three stacks.
 */
module Processes {
  import opened ProcessStacks
  import Bitmap

  /** The PCB of each live process lies where get_pcb_ptr looks for it. */
  ghost predicate Stored(mem: map<int, Pcb>, a: Stacks)
    requires StacksOk(a)
  {
    forall p {:trigger a.at[p]} :: p in a.at ==> PcbAddr(p) in mem && mem[PcbAddr(p)] == a.s[a.at[p].0][a.at[p].1]
  }

  /** There is a PCB's worth of memory below 8 MB for every pid, and one at 8 MB for pid -1. */
  ghost predicate MemOk(mem: map<int, Pcb>) {
    forall p {:trigger PcbAddr(p)} :: -1 <= p < MAX_PROCESS ==> PcbAddr(p) in mem && |mem[PcbAddr(p)].fds| == NUM_FD
  }

  lemma StoredAfterSave(mem: map<int, Pcb>, a: Stacks, ctx: Ctx)
    requires StacksOk(a) && Stored(mem, a) && a.s[a.running] != []
    ensures StacksOk(SaveTop(a, ctx))
    ensures var top := PcbAddr(TopPid(a.s[a.running]));
            top in mem && Stored(mem[top := mem[top].(ctx := ctx)], SaveTop(a, ctx))
  {
    SaveKeeps(a, ctx);
    assert FrameOk(a, a.running, |a.s[a.running]| - 1);
    var top := TopPid(a.s[a.running]);
    assert a.at[top] == (a.running, |a.s[a.running]| - 1);
  }

  lemma StoredAfterPush(mem: map<int, Pcb>, a: Stacks, t: int, pcb: Pcb, args: string)
    requires StacksOk(a) && Stored(mem, a) && 0 <= t < NUM_TERM && pcb.pid !in a.at && 0 <= pcb.pid < MAX_PROCESS
    requires IsFresh(pcb, pcb.pid, TopPid(a.s[t]), args)
    ensures StacksOk(Push(a, t, pcb)) && Stored(mem[PcbAddr(pcb.pid) := pcb], Push(a, t, pcb))
  {
    PushKeeps(a, t, pcb, args);
    var b := Push(a, t, pcb);
    forall p | p in b.at
      ensures p != pcb.pid ==> p in a.at && b.at[p] == a.at[p]
    {
      if p != pcb.pid { assert a.at[p] == b.at[p]; }
    }
  }

  lemma StoredAfterPop(mem: map<int, Pcb>, a: Stacks, pcb: Pcb)
    requires StacksOk(a) && Stored(mem, a) && a.s[a.running] != []
    ensures StacksOk(Pop(a)) && Stored(mem[PcbAddr(TopPid(a.s[a.running])) := pcb], Pop(a))
  {
    PopKeeps(a);
    var b := Pop(a);
    forall p | p in b.at
      ensures p != TopPid(a.s[a.running]) && b.at[p] == a.at[p] && p in a.at
    {
      assert a.at[p] == b.at[p];
    }
  }

  lemma StoredWithFds(mem: map<int, Pcb>, a: Stacks, fds: seq<Fd>)
    requires StacksOk(a) && Stored(mem, a) && a.s[a.running] != [] && |fds| == NUM_FD
    ensures StacksOk(WithFds(a, fds))
    ensures var top := PcbAddr(TopPid(a.s[a.running]));
            top in mem && Stored(mem[top := mem[top].(fds := fds)], WithFds(a, fds))
  {
    WithFdsKeeps(a, fds);
    assert FrameOk(a, a.running, |a.s[a.running]| - 1);
    var top := TopPid(a.s[a.running]);
    assert a.at[top] == (a.running, |a.s[a.running]| - 1);
  }

  /** The top of a stack has its pid, its place in memory and its parent below it. */
  lemma TopStored(mem: map<int, Pcb>, a: Stacks, t: int)
    requires StacksOk(a) && Stored(mem, a) && 0 <= t < NUM_TERM
    ensures a.s[t] == [] <==> TopPid(a.s[t]) == -1
    ensures a.s[t] != [] ==>
              && TopPid(a.s[t]) in a.at && 0 <= TopPid(a.s[t]) < MAX_PROCESS
              && PcbAddr(TopPid(a.s[t])) in mem && mem[PcbAddr(TopPid(a.s[t]))] == Top(a.s[t])
              && |Top(a.s[t]).fds| == NUM_FD && Top(a.s[t]).esp0 == StackTop(TopPid(a.s[t]))
    ensures a.s[t] != [] ==> Top(a.s[t]).parent == TopPid(a.s[t][..|a.s[t]| - 1])
    ensures a.s[t] != [] && Top(a.s[t]).parent == -1 ==> |a.s[t]| == 1
  {
    if a.s[t] != [] {
      assert FrameOk(a, t, |a.s[t]| - 1);
      if |a.s[t]| > 1 { assert FrameOk(a, t, |a.s[t]| - 2); }
      assert a.at[TopPid(a.s[t])] == (t, |a.s[t]| - 1);
    }
  }

  /** The PCB of the process that was on top, once its context is saved, lies where it did. */
  lemma SavedStored(mem: map<int, Pcb>, a: Stacks, b: Stacks, ctx: Ctx)
    requires StacksOk(a) && a.s[a.running] != [] && StacksOk(b) && Stored(mem, b)
    requires var st := a.s[a.running];
             && |st| <= |b.s[a.running]| && b.s[a.running][..|st|] == st[|st| - 1 := Top(st).(ctx := ctx)]
    ensures var top := Top(a.s[a.running]);
            PcbAddr(top.pid) in mem && mem[PcbAddr(top.pid)] == top.(ctx := ctx)
  {
    var st := a.s[a.running];
    assert b.s[a.running][|st| - 1] == b.s[a.running][..|st|][|st| - 1];
    assert FrameOk(b, a.running, |st| - 1);
    assert b.at[Top(st).pid] == (a.running, |st| - 1);
  }

  /** The running terminal after going on to terminal `t`: nothing else changes. */
  lemma SwitchKeeps(a: Stacks, t: int)
    requires StacksOk(a) && 0 <= t < NUM_TERM
    ensures StacksOk(a.(running := t))
  {
    var b := a.(running := t);
    forall u, i | 0 <= u < NUM_TERM && 0 <= i < |b.s[u]|
      ensures FrameOk(b, u, i)
    {
      assert FrameOk(a, u, i);
    }
  }

  /** The pids met by following parent links in memory from `pid`, at most `n` of them. */
  ghost function Chain(mem: map<int, Pcb>, pid: int, n: nat): seq<int>
    decreases n
  {
    if n == 0 || pid == -1 || PcbAddr(pid) !in mem then []
    else [pid] + Chain(mem, mem[PcbAddr(pid)].parent, n - 1)
  }

  ghost function TopDown(st: seq<Pcb>): seq<int> {
    seq(|st|, k requires 0 <= k < |st| => st[|st| - 1 - k].pid)
  }

  /** The parent links in memory lead down the stack and end at -1 below it. */
  lemma {:induction false} ChainIsStack(mem: map<int, Pcb>, a: Stacks, t: int, h: nat, n: nat)
    requires StacksOk(a) && Stored(mem, a) && 0 <= t < NUM_TERM && h <= |a.s[t]| && h <= n
    ensures Chain(mem, TopPid(a.s[t][..h]), n) == TopDown(a.s[t][..h])
  {
    if h > 0 {
      var st := a.s[t][..h];
      assert FrameOk(a, t, h - 1);
      assert a.at[a.s[t][h - 1].pid] == (t, h - 1);
      ChainIsStack(mem, a, t, h - 1, n - 1);
      assert Top(st) == a.s[t][h - 1] && st[..h - 1] == a.s[t][..h - 1];
      assert TopDown(st) == [Top(st).pid] + TopDown(st[..h - 1]);
    }
  }

  lemma ChainOfTerm(mem: map<int, Pcb>, a: Stacks, t: int)
    requires StacksOk(a) && Stored(mem, a) && 0 <= t < NUM_TERM
    ensures Chain(mem, TopPid(a.s[t]), MAX_PROCESS) == TopDown(a.s[t])
  {
    HeightBound(a, t);
    assert a.s[t][..|a.s[t]|] == a.s[t];
    ChainIsStack(mem, a, t, |a.s[t]|, MAX_PROCESS);
  }

  lemma BaseStored(mem: map<int, Pcb>, a: Stacks, t: int)
    requires StacksOk(a) && Stored(mem, a) && 0 <= t < NUM_TERM && a.s[t] != []
    ensures PcbAddr(a.s[t][0].pid) in mem && mem[PcbAddr(a.s[t][0].pid)].parent == -1
  {
    assert FrameOk(a, t, 0);
    assert a.at[a.s[t][0].pid] == (t, 0);
  }

  /** The chains together hold the used pids, each in one place of one chain. */
  ghost predicate IsForest(used: set<int>, chains: seq<seq<int>>) {
    && (forall p :: p in used <==> exists t, k :: 0 <= t < |chains| && 0 <= k < |chains[t]| && chains[t][k] == p)
    && (forall t, k, u, j ::
          (0 <= t < |chains| && 0 <= k < |chains[t]| && 0 <= u < |chains| && 0 <= j < |chains[u]|
              && chains[t][k] == chains[u][j]) ==>
            t == u && k == j)
  }

  ghost function Columns(a: Stacks): seq<seq<int>> {
    seq(|a.s|, t requires 0 <= t < |a.s| => TopDown(a.s[t]))
  }

  lemma StacksAreForest(a: Stacks)
    requires StacksOk(a)
    ensures IsForest(a.at.Keys, Columns(a))
  {
    var c := Columns(a);
    forall t, k | 0 <= t < |c| && 0 <= k < |c[t]|
      ensures c[t][k] in a.at && a.at[c[t][k]] == (t, |c[t]| - 1 - k)
    {
      assert FrameOk(a, t, |c[t]| - 1 - k);
    }
    forall p | p in a.at
      ensures exists t, k :: 0 <= t < |c| && 0 <= k < |c[t]| && c[t][k] == p
    {
      var (t, i) := a.at[p];
      assert c[t][|c[t]| - 1 - i] == p;
    }
  }

  /** A tick in two halves. */
  lemma TickIsStep(a: Stacks, ctx: Ctx, mid: Stacks, pcb: Pcb, b: Stacks, out: Outcome)
    requires StacksOk(a) && StacksOk(mid) && mid == SaveTop(a, ctx).(running := NextTerm(a.running))
    requires if mid.s[mid.running] != [] then b == mid && out == Switched(Top(mid.s[mid.running]).ctx)
             else if FreePid(mid) == -1 then out == Stuck
             else IsFresh(pcb, FreePid(mid), -1, "") && b == Push(mid, mid.running, pcb) && out == Started(pcb.pid)
    ensures Step(a, Tick(ctx), pcb, b, out)
  {
  }

  lemma SavedByTick(mem: map<int, Pcb>, a: Stacks, ctx: Ctx, mid: Stacks, pcb: Pcb, b: Stacks, out: Outcome)
    requires StacksOk(a) && StacksOk(mid) && mid == SaveTop(a, ctx).(running := NextTerm(a.running))
    requires a.s[a.running] != [] && StacksOk(b) && Stored(mem, b)
    requires b == mid || b == Push(mid, mid.running, pcb)
    ensures var top := Top(a.s[a.running]);
            PcbAddr(top.pid) in mem && mem[PcbAddr(top.pid)] == top.(ctx := ctx)
  {
    var st := a.s[a.running];
    var saved := st[|st| - 1 := Top(st).(ctx := ctx)];
    assert mid.s[a.running] == saved && saved[..|st|] == saved;
    assert b.s[a.running] == saved;
    SavedStored(mem, a, b, ctx);
  }

  predicate Closable(fds: seq<Fd>, fd: int) {
    2 <= fd < |fds| && fds[fd].inUse
  }

  function Closed(fds: seq<Fd>, fd: int): seq<Fd> {
    if Closable(fds, fd) then fds[fd := fds[fd].(inUse := false)] else fds
  }

  class Kernel {
    const pcbBitmap: array<int>
    const termPid: array<int>
    const termNext: array<int>
    var mem: map<int, Pcb>
    var curPid: int
    var curPcb: int
    var runningTerm: int
    var esp0: int          // tss.esp0
    var frame: int         // page_dir_base[32].pg_addr
    ghost var a: Stacks

    ghost function Used(): set<int>
      reads pcbBitmap
    {
      set p | 0 <= p < pcbBitmap.Length && pcbBitmap[p] != 0
    }

    /** The shape of the records, whatever they hold. */
    ghost predicate Shaped()
      reads this, termNext
    {
      && pcbBitmap.Length == MAX_PROCESS && termPid.Length == NUM_TERM && termNext.Length == NUM_TERM
      && pcbBitmap != termPid && pcbBitmap != termNext && termPid != termNext
      && (forall t :: 0 <= t < NUM_TERM ==> termNext[t] == NextTerm(t))
      && MemOk(mem)
    }

    /** The pids the terminals hold; cur_pid stands in for the running one. */
    ghost predicate TermsOk()
      requires Shaped() && StacksOk(a)
      reads this, termNext, termPid
    {
      && runningTerm == a.running && curPid == TopPid(a.s[a.running])
      && (forall t :: 0 <= t < NUM_TERM && t != runningTerm ==> termPid[t] == TopPid(a.s[t]))
    }

    /** All that holds halfway through a step too, while the set of used pids and the stack and
        page frame in use are changing. */
    ghost predicate RecordsOk()
      reads this, termPid, termNext
    {
      && Shaped() && StacksOk(a) && Stored(mem, a) && TermsOk()
      && (curPid != -1 ==> curPcb == PcbAddr(curPid))
    }

    /** The used pids are the live processes', and the running process has its own stack and page
        frame in use. */
    ghost predicate Valid()
      reads this, pcbBitmap, termPid, termNext
    {
      && RecordsOk() && Used() == a.at.Keys
      && (curPid != -1 ==> esp0 == StackTop(curPid) && frame == curPid + 2)
    }

    /** The pid at the head of terminal `t`'s chain of parents. */
    ghost function HeadOf(t: int): int
      requires 0 <= t < termPid.Length
      reads this, termPid
    {
      if t == runningTerm then curPid else termPid[t]
    }

    /** The used pids are the disjoint union of the three chains of parent links in memory; no chain
        has a repetition, and each ends at a base shell, whose parent is -1. */
    lemma Forest()
      requires Valid()
      ensures IsForest(Used(), [Chain(mem, HeadOf(0), MAX_PROCESS), Chain(mem, HeadOf(1), MAX_PROCESS),
                                Chain(mem, HeadOf(2), MAX_PROCESS)])
      ensures forall t :: 0 <= t < NUM_TERM && HeadOf(t) != -1 ==>
                var c := Chain(mem, HeadOf(t), MAX_PROCESS);
                c != [] && PcbAddr(c[|c| - 1]) in mem && mem[PcbAddr(c[|c| - 1])].parent == -1
    {
      hide IsForest, Chain, Stored, MemOk;
      StacksAreForest(a);
      forall t | 0 <= t < NUM_TERM
        ensures Chain(mem, HeadOf(t), MAX_PROCESS) == TopDown(a.s[t])
        ensures HeadOf(t) != -1 ==>
                  a.s[t] != [] && PcbAddr(a.s[t][0].pid) in mem && mem[PcbAddr(a.s[t][0].pid)].parent == -1
      {
        ChainOfHead(t);
      }
      assert Columns(a) == [TopDown(a.s[0]), TopDown(a.s[1]), TopDown(a.s[2])];
    }

    lemma ChainOfHead(t: int)
      requires Valid() && 0 <= t < NUM_TERM
      ensures Chain(mem, HeadOf(t), MAX_PROCESS) == TopDown(a.s[t])
      ensures HeadOf(t) != -1 ==>
                a.s[t] != [] && PcbAddr(a.s[t][0].pid) in mem && mem[PcbAddr(a.s[t][0].pid)].parent == -1
    {
      ChainOfTerm(mem, a, t);
      if HeadOf(t) != -1 {
        TopStored(mem, a, t);
        BaseStored(mem, a, t);
      }
    }

    /** terminal_init, on the kernel's initial data. */
    constructor (junk: map<int, Pcb>)
      requires MemOk(junk)
      ensures Valid() && fresh(pcbBitmap) && fresh(termPid) && fresh(termNext) && a == BOOT && mem == junk
    {
      mem, curPid, curPcb, runningTerm, esp0, frame := junk, -1, 0, 0, 0, 0;
      a := BOOT;
      var pids := new int[NUM_TERM];
      var next := new int[NUM_TERM];
      for i := 0 to NUM_TERM
        invariant forall t :: 0 <= t < i ==> pids[t] == -1
      {
        pids[i] := -1;
      }
      next[0], next[1], next[2] := 1, 2, 0;
      termPid, termNext, pcbBitmap := pids, next, new int[MAX_PROCESS](_ => 0);
      new;
      assert Used() == {};
    }

    /** record_process: the lowest pid not in use, which becomes used, or -1 when all six are. */
    method RecordProcess() returns (newPid: int)
      requires pcbBitmap.Length == MAX_PROCESS
      modifies pcbBitmap
      ensures newPid == Bitmap.Lowest(old(Used()), 0, MAX_PROCESS)
      ensures Used() == if newPid == -1 then old(Used()) else old(Used()) + {newPid}
    {
      newPid := -1;
      for i := 0 to MAX_PROCESS
        invariant newPid == -1 && Used() == old(Used())
        invariant Bitmap.Lowest(Used(), 0, MAX_PROCESS) == Bitmap.Lowest(Used(), i, MAX_PROCESS)
      {
        if pcbBitmap[i] == 0 {
          newPid := i;
          pcbBitmap[i] := 1;
          break;
        }
      }
    }

    method DecordProcess(pid: int) returns (r: int)
      requires 0 <= pid < pcbBitmap.Length
      modifies pcbBitmap
      ensures Used() == old(Used()) - {pid}
      ensures r == if pid in old(Used()) then 0 else -1
    {
      if pcbBitmap[pid] == 0 {
        return -1;
      }
      pcbBitmap[pid] := 0;
      return 0;
    }

    method SetupPaging(pid: int)
      modifies `frame
      ensures frame == pid + 2
    {
      frame := pid + 2;
    }

    /** init_file_table on the PCB at `addr`. */
    method InitFileTable(addr: int)
      requires Shaped() && addr in mem && |mem[addr].fds| == NUM_FD
      modifies `mem
      ensures addr in mem && mem == old(mem)[addr := old(mem[addr]).(fds := mem[addr].fds)] && |mem[addr].fds| == NUM_FD
      ensures mem[addr].fds[0] == Fd(true, STDIN_OPS, -1, 0) && mem[addr].fds[1] == Fd(true, STDOUT_OPS, -1, 0)
      ensures forall j :: 2 <= j < NUM_FD ==> !mem[addr].fds[j].inUse
    {
      for i := 0 to NUM_FD
        invariant addr in mem && |mem[addr].fds| == NUM_FD
        invariant mem == old(mem)[addr := old(mem[addr]).(fds := mem[addr].fds)]
        invariant 0 < i ==> mem[addr].fds[0] == Fd(true, STDIN_OPS, -1, 0)
        invariant 1 < i ==> mem[addr].fds[1] == Fd(true, STDOUT_OPS, -1, 0)
        invariant forall j :: 2 <= j < i ==> !mem[addr].fds[j].inUse
      {
        var fds := mem[addr].fds;
        var fd := if i == 0 then Fd(true, STDIN_OPS, -1, 0)
                  else if i == 1 then Fd(true, STDOUT_OPS, -1, 0)
                  else fds[i].(inUse := false);
        mem := mem[addr := mem[addr].(fds := fds[i := fd])];
      }
    }

    /** The new process's PCB, filled in. */
    method InitPcb(newPid: int, args: string) returns (addr: int)
      requires RecordsOk() && newPid !in a.at && 0 <= newPid < MAX_PROCESS
      modifies `mem
      ensures addr == PcbAddr(newPid) && addr in mem && IsFresh(mem[addr], newPid, curPid, args)
      ensures RecordsOk()
    {
      addr := PcbAddr(newPid);
      mem := mem[addr := mem[addr].(pid := newPid, parent := curPid)];
      InitFileTable(addr);
      mem := mem[addr := mem[addr].(esp0 := addr + K8 - 4, args := args)];
      assert Stored(mem, a) by { assert forall p :: p in a.at ==> a.at[p] == a.at[p] && PcbAddr(p) != addr; }
    }

    /** What executing a program comes to: on success the caller's context is saved and the new
        process runs above it, or alone when no process was running. */
    ghost predicate Spawned(b: Stacks, ctx: Ctx, args: string, pcb: Pcb)
      requires StacksOk(b)
      reads this
    {
      && IsFresh(pcb, FreePid(b), TopPid(b.s[b.running]), args)
      && a == Push(SaveTop(b, ctx), b.running, pcb)
    }

    method Execute(ctx: Ctx, loads: bool, args: string) returns (out: Outcome, ghost pcb: Pcb)
      requires Valid()
      modifies this, pcbBitmap
      ensures Valid()
      ensures out == if !loads then Returned(-1)
                     else if FreePid(old(a)) == -1 then Returned(0)
                     else Started(FreePid(old(a)))
      ensures if out.Started? then Spawned(old(a), ctx, args, pcb)
              else a == old(a) && mem == old(mem) && curPid == old(curPid) && curPcb == old(curPcb)
                   && frame == old(frame) && esp0 == old(esp0)
      ensures old(curPid) != -1 ==> Step(old(a), Event.Execute(ctx, loads, args), pcb, a, out)
      ensures out.Started? ==>
                && curPid == out.pid && curPcb == M8 - (curPid + 1) * K8 && esp0 == curPcb + K8 - 4
                && frame == curPid + 2 && curPcb in mem && mem[curPcb].pid == curPid
                && mem[curPcb].args == args && mem[curPcb].parent == old(curPid)
      ensures out.Started? && old(curPid) != -1 ==>
                && old(curPcb) in old(mem) && old(curPcb) in mem
                && mem[old(curPcb)] == old(mem[curPcb]).(ctx := ctx)
    {
      TopStored(mem, a, a.running);
      pcb := mem[PcbAddr(-1)];
      if !loads {
        return Returned(-1), pcb;
      }
      var newPid := RecordProcess();
      if newPid == -1 {
        return Returned(0), pcb;
      }
      out, pcb := Start(ctx, newPid, args);
      TopStored(mem, a, a.running);
      if old(curPid) != -1 { SavedStored(mem, old(a), a, ctx); }
    }

    /** The running process, if there is one, keeps its stack and frame pointers. */
    method SaveCurrent(ctx: Ctx)
      requires RecordsOk()
      modifies `mem, `a
      ensures RecordsOk() && a == SaveTop(old(a), ctx)
      ensures if curPid == -1 then mem == old(mem)
              else curPid in a.at && curPcb in mem && mem == old(mem)[curPcb := mem[curPcb]]
    {
      TopStored(mem, a, a.running);
      if curPid != -1 {
        StoredAfterSave(mem, a, ctx);
        mem := mem[curPcb := mem[curPcb].(ctx := ctx)];
        a := SaveTop(a, ctx);
      }
    }

    /** The second half of syscall_execute, once the pid is taken. */
    method Start(ctx: Ctx, newPid: int, args: string) returns (out: Outcome, ghost pcb: Pcb)
      requires RecordsOk()
      requires newPid == FreePid(a) && newPid != -1 && Used() == a.at.Keys + {newPid}
      modifies this
      ensures Valid()
      ensures out == Started(newPid) && Spawned(old(a), ctx, args, pcb)
    {
      var newPcb := Prepare(ctx, newPid, args);
      pcb := mem[newPcb];
      Enter(newPid, newPcb, args);
      return Started(newPid), pcb;
    }

    /** The new process gets its page frame and its PCB, then the caller's context is saved. */
    method Prepare(ctx: Ctx, newPid: int, args: string) returns (newPcb: int)
      requires RecordsOk() && newPid !in a.at && 0 <= newPid < MAX_PROCESS
      modifies `mem, `a, `frame
      ensures RecordsOk() && a == SaveTop(old(a), ctx) && frame == newPid + 2
      ensures newPcb == PcbAddr(newPid) && newPcb in mem && IsFresh(mem[newPcb], newPid, curPid, args)
    {
      SetupPaging(newPid);
      newPcb := InitPcb(newPid, args);
      SaveCurrent(ctx);
    }

    /** The new process becomes the running one. */
    method Enter(newPid: int, newPcb: int, ghost args: string)
      requires RecordsOk() && newPid !in a.at && 0 <= newPid < MAX_PROCESS && newPcb == PcbAddr(newPid)
      requires newPcb in mem && IsFresh(mem[newPcb], newPid, curPid, args)
      modifies `a, `curPid, `curPcb, `esp0
      ensures RecordsOk() && a == Push(old(a), old(a).running, mem[newPcb])
      ensures curPid == newPid && esp0 == StackTop(newPid)
    {
      assert mem[newPcb := mem[newPcb]] == mem;
      StoredAfterPush(mem, a, a.running, mem[newPcb], args);
      a := Push(a, a.running, mem[newPcb]);
      curPcb, curPid := newPcb, newPid;
      esp0 := mem[newPcb].esp0;
    }

    /** syscall_close: descriptors 0 and 1 stay open. */
    method CloseFd(fd: int) returns (r: int)
      requires MemOk(mem) && curPcb in mem && |mem[curPcb].fds| == NUM_FD
      modifies `mem
      ensures MemOk(mem) && mem == old(mem)[curPcb := old(mem[curPcb]).(fds := Closed(old(mem[curPcb].fds), fd))]
      ensures r == if Closable(old(mem[curPcb].fds), fd) then 0 else -1
      ensures r == -1 ==> mem == old(mem)
    {
      if fd < 2 || fd > 7 {
        return -1;
      }
      var fds := mem[curPcb].fds;
      if !fds[fd].inUse {
        return -1;
      }
      mem := mem[curPcb := mem[curPcb].(fds := fds[fd := fds[fd].(inUse := false)])];
      return 0;
    }

    /** The same process runs on, and of all PCBs only its descriptors may be other ones. */
    twostate predicate OnlyTableChanged()
      reads this
    {
      && curPid == old(curPid) && curPcb == old(curPcb) && frame == old(frame) && esp0 == old(esp0)
      && curPcb in old(mem) && curPcb in mem && |old(mem)[curPcb].fds| == |mem[curPcb].fds| == NUM_FD
      && mem[curPcb].(fds := []) == old(mem)[curPcb].(fds := [])
      && mem.Keys == old(mem).Keys && forall p :: p in mem && p != curPcb ==> mem[p] == old(mem)[p]
    }

    method Close(fd: int) returns (out: Outcome, ghost pcb: Pcb)
      requires Valid() && curPid != -1
      modifies this
      ensures Valid() && Step(old(a), Event.Close(fd), pcb, a, out)
      ensures OnlyTableChanged()
      ensures var was, now := old(mem[curPcb].fds), mem[curPcb].fds;
              && (out == Returned(0) || out == Returned(-1))
              && (out == Returned(0) <==> 2 <= fd < NUM_FD && was[fd].inUse)
              && (out == Returned(0) ==> !now[fd].inUse && forall j :: 0 <= j < NUM_FD && j != fd ==> now[j] == was[j])
              && (out == Returned(-1) ==> mem == old(mem))
    {
      TopStored(mem, a, a.running);
      ghost var fds := Closed(mem[curPcb].fds, fd);
      pcb := mem[curPcb];
      StoredWithFds(mem, a, fds);
      var r := CloseFd(fd);
      if r == 0 {
        a := WithFds(a, fds);
      }
      return Returned(r), pcb;
    }

    /** syscall_open, once the name is looked up: the lowest free descriptor from 2 on. */
    method Open(found: bool, ops: int, inode: int) returns (out: Outcome, ghost pcb: Pcb)
      requires Valid() && curPid != -1
      modifies this
      ensures Valid() && Step(old(a), Event.Open(found, ops, inode), pcb, a, out)
      ensures OnlyTableChanged() && out.Returned?
      ensures var was, now, fd := old(mem[curPcb].fds), mem[curPcb].fds, out.ret;
              && (fd == -1 || 2 <= fd < NUM_FD)
              && (fd == -1 <==> !found || forall j :: 2 <= j < NUM_FD ==> was[j].inUse)
              && (fd == -1 ==> mem == old(mem))
              && (fd != -1 ==>
                    && !was[fd].inUse && (forall j :: 2 <= j < fd ==> was[j].inUse)
                    && now[fd].inUse && now[fd].ops == ops && now[fd].inode == inode && now[fd].pos == 0
                    && forall j :: 0 <= j < NUM_FD && j != fd ==> now[j] == was[j])
    {
      TopStored(mem, a, a.running);
      pcb := mem[curPcb];
      if !found {
        return Returned(-1), pcb;
      }
      var fds := mem[curPcb].fds;
      for idx := 2 to NUM_FD
        invariant Valid() && a == old(a) && mem == old(mem) && FreeFd(fds, 2) == FreeFd(fds, idx)
      {
        if !fds[idx].inUse {
          StoredWithFds(mem, a, fds[idx := Fd(true, ops, inode, 0)]);
          mem := mem[curPcb := mem[curPcb].(fds := fds[idx := Fd(true, ops, inode, 0)])];
          a := WithFds(a, fds[idx := Fd(true, ops, inode, 0)]);
          return Returned(idx), pcb;
        }
      }
      return Returned(-1), pcb;
    }

    /** The loop of syscall_halt over its descriptors. */
    method CloseAll()
      requires MemOk(mem) && curPcb in mem && |mem[curPcb].fds| == NUM_FD
      modifies `mem
      ensures MemOk(mem) && curPcb in mem && mem == old(mem)[curPcb := old(mem[curPcb]).(fds := mem[curPcb].fds)]
      ensures forall j :: 2 <= j < |mem[curPcb].fds| ==> !mem[curPcb].fds[j].inUse
    {
      for i := 0 to NUM_FD
        invariant MemOk(mem) && curPcb in mem && |mem[curPcb].fds| == NUM_FD
        invariant mem == old(mem)[curPcb := old(mem[curPcb]).(fds := mem[curPcb].fds)]
        invariant forall j :: 2 <= j < i ==> !mem[curPcb].fds[j].inUse
      {
        var _ := CloseFd(i);
      }
    }

    /** The dead process leaves the stack; its parent, if it has one, becomes the running one. */
    method Leave(nextPid: int, nextPcb: int, ghost dead: map<int, Pcb>)
      requires Shaped() && StacksOk(a) && Stored(dead, a) && TermsOk() && curPid != -1
      requires PcbAddr(curPid) in mem && mem == dead[PcbAddr(curPid) := mem[PcbAddr(curPid)]]
      requires nextPid == TopPid(Pop(a).s[a.running]) && (nextPid != -1 ==> nextPcb == PcbAddr(nextPid))
      modifies `a, `curPid, `curPcb
      ensures RecordsOk() && a == Pop(old(a)) && curPid == nextPid && curPcb == nextPcb
    {
      TopStored(dead, a, a.running);
      StoredAfterPop(dead, a, mem[PcbAddr(curPid)]);
      a := Pop(a);
      curPid, curPcb := nextPid, nextPcb;
    }

    /** Halting with a parent: back to the parent's stack and frame, and its saved context. */
    method ReturnToParent(status: int) returns (out: Outcome)
      requires RecordsOk() && curPid != -1 && Used() == a.at.Keys - {curPid}
      requires curPcb in mem && mem[curPcb].parent != -1
      modifies this
      ensures Valid() && a == Pop(old(a)) && a.s[a.running] != []
      ensures out == Resumed(Top(a.s[a.running]).ctx, if status == 255 then 256 else status)
    {
      TopStored(mem, a, a.running);
      var parentPid := mem[curPcb].parent;
      var parentPcb := PcbAddr(parentPid);
      PopKeeps(a);
      assert Stored(mem, Pop(a)) by { StoredAfterPop(mem, a, mem[curPcb]); assert mem[curPcb := mem[curPcb]] == mem; }
      TopStored(mem, Pop(a), a.running);
      esp0 := mem[parentPcb].esp0;
      SetupPaging(parentPid);
      CloseAll();
      Leave(parentPid, parentPcb, old(mem));
      out := Resumed(mem[parentPcb].ctx, if status == 255 then 256 else status);
    }

    method Halt(status: int) returns (out: Outcome, ghost pcb: Pcb)
      requires Valid() && curPid != -1
      modifies this, pcbBitmap
      ensures Valid() && Step(old(a), Event.Halt(status), pcb, a, out)
      ensures old(curPcb) in old(mem) && curPcb in mem && curPcb == M8 - (curPid + 1) * K8 && frame == curPid + 2
      ensures var parent := old(mem[curPcb].parent);
              if parent == -1 then out == Started(curPid) && mem[curPcb].parent == -1 && mem[curPcb].args == ""
              else && curPid == parent && curPcb in old(mem) && mem[curPcb] == old(mem)[curPcb]
                   && out == Resumed(mem[curPcb].ctx, if status == 255 then 256 else status)
    {
      TopStored(mem, a, a.running);
      pcb := mem[curPcb];
      PopKeeps(a);
      var _ := DecordProcess(curPid);
      if mem[curPcb].parent == -1 {
        out, pcb := RestartShell();
      } else {
        out := ReturnToParent(status);
      }
      TopStored(mem, a, a.running);
    }

    /** launch_base_shell, in a terminal where no process runs. */
    method LaunchBaseShell() returns (out: Outcome, ghost pcb: Pcb)
      requires Valid() && curPid == -1
      modifies this, pcbBitmap
      ensures Valid()
      ensures out == if FreePid(old(a)) == -1 then Returned(0) else Started(FreePid(old(a)))
      ensures if out.Started? then IsFresh(pcb, FreePid(old(a)), -1, "") && a == Push(old(a), old(a).running, pcb)
              else a == old(a) && curPid == -1 && curPcb == old(curPcb)
    {
      TopStored(mem, a, a.running);
      out, pcb := Execute(Ctx(0, 0), true, "");
    }

    /** Halting without a parent: another base shell takes the terminal. */
    method RestartShell() returns (out: Outcome, ghost pcb: Pcb)
      requires RecordsOk() && curPid != -1 && Used() == a.at.Keys - {curPid} && Pop(a).s[a.running] == []
      modifies this, pcbBitmap
      ensures Valid() && out == Started(pcb.pid)
      ensures IsFresh(pcb, FreePid(Pop(old(a))), -1, "") && a == Push(Pop(old(a)), old(a).running, pcb)
    {
      TopStored(mem, a, a.running);
      PopKeeps(a);
      assert mem == mem[curPcb := mem[curPcb]];
      Leave(-1, curPcb, mem);
      out, pcb := LaunchBaseShell();
    }

    /** The ring step of schedule. */
    method NextTerminal()
      requires RecordsOk() && Used() == a.at.Keys
      modifies this, termPid
      ensures RecordsOk() && Used() == old(Used())
      ensures a == old(a).(running := NextTerm(old(a).running))
      ensures curPcb == PcbAddr(curPid) && mem == old(mem)
    {
      SwitchKeeps(a, NextTerm(a.running));
      termPid[runningTerm] := curPid;
      var next := termNext[runningTerm];
      var nextPid := termPid[next];
      runningTerm := next;
      curPcb := PcbAddr(nextPid);
      curPid := nextPid;
      a := a.(running := next);
    }

    /** schedule also stores tss.esp0 in the PCB that it leaves: the value that is there already. */
    method SaveEsp0()
      requires Valid()
      modifies `mem
      ensures Valid() && mem == old(mem)
    {
      TopStored(mem, a, a.running);
      if curPid != -1 {
        mem := mem[curPcb := mem[curPcb].(esp0 := esp0)];
        assert mem == old(mem);
      }
    }

    /** The first half of schedule: the terminal that was running keeps its context and the
        next one in the ring becomes the running one. */
    method Advance(ctx: Ctx)
      requires Valid()
      modifies this, termPid
      ensures RecordsOk() && Used() == a.at.Keys && curPcb == PcbAddr(curPid)
      ensures a == SaveTop(old(a), ctx).(running := NextTerm(old(a).running)) && FreePid(a) == FreePid(old(a))
      ensures curPid == -1 <==> a.s[a.running] == []
    {
      SaveEsp0();
      SaveCurrent(ctx);
      NextTerminal();
      TopStored(mem, a, a.running);
    }

    /** The second half: a base shell starts in a terminal without a process, and otherwise the
        terminal's process resumes. */
    method LaunchOrResume() returns (out: Outcome, ghost pcb: Pcb)
      requires RecordsOk() && Used() == a.at.Keys && curPcb == PcbAddr(curPid)
      requires curPid == -1 <==> a.s[a.running] == []
      modifies this, pcbBitmap
      ensures if old(a).s[old(a).running] != [] then a == old(a) && out == Switched(Top(a.s[a.running]).ctx)
              else if FreePid(old(a)) == -1 then out == Stuck
              else && IsFresh(pcb, FreePid(old(a)), -1, "") && a == Push(old(a), old(a).running, pcb)
                   && out == Started(pcb.pid)
      ensures if out == Stuck then curPid == -1 && frame == 1 && curPcb == M8 && runningTerm == old(a).running
              else Valid()
      ensures out != Stuck ==> curPid != -1 && curPcb == M8 - (curPid + 1) * K8 && frame == curPid + 2 && curPcb in mem
      ensures out.Switched? ==> out.ctx == mem[curPcb].ctx
    {
      pcb := mem[PcbAddr(-1)];
      if curPid == -1 {
        out, pcb := LaunchBaseShell();
        if out.Started? {
          return;
        }
      }
      out := Resume();
    }

    /** schedule.  Where the next terminal needs a base shell and no pid is free, it falls through
        with pid -1: the frame is then 1 and the stack is read from above the last PCB. */
    method Schedule(ctx: Ctx) returns (out: Outcome, ghost pcb: Pcb)
      requires Valid()
      modifies this, pcbBitmap, termPid
      ensures Step(old(a), Tick(ctx), pcb, a, out)
      ensures if out == Stuck then curPid == -1 && frame == 1 && curPcb == M8 && runningTerm == NextTerm(old(a).running)
              else Valid()
      ensures runningTerm == (old(runningTerm) + 1) % 3
      ensures out != Stuck ==> curPid != -1 && curPcb == M8 - (curPid + 1) * K8 && frame == curPid + 2 && curPcb in mem
      ensures out.Switched? ==> out.ctx == mem[curPcb].ctx
      ensures out != Stuck && old(curPid) != -1 ==>
                && old(curPcb) in old(mem) && old(curPcb) in mem
                && mem[old(curPcb)] == old(mem[curPcb]).(ctx := ctx)
    {
      hide Stored, MemOk, Step, FrameOk;
      TopStored(mem, a, a.running);
      Advance(ctx);
      ghost var mid := a;
      out, pcb := LaunchOrResume();
      TickIsStep(old(a), ctx, mid, pcb, a, out);
      if out != Stuck && old(curPid) != -1 { SavedByTick(mem, old(a), ctx, mid, pcb, a, out); }
    }

    /** The last part of schedule: the frame, stack and context of whatever pid is current. */
    method Resume() returns (out: Outcome)
      requires RecordsOk() && Used() == a.at.Keys && curPcb == PcbAddr(curPid)
      modifies `frame, `esp0
      ensures frame == curPid + 2
      ensures if curPid == -1 then out == Stuck
              else Valid() && a.s[a.running] != [] && out == Switched(Top(a.s[a.running]).ctx)
      ensures curPid != -1 ==> curPcb in mem && out == Switched(mem[curPcb].ctx)
    {
      TopStored(mem, a, a.running);
      SetupPaging(curPid);
      esp0 := mem[curPcb].esp0;
      out := if curPid == -1 then Stuck else Switched(mem[curPcb].ctx);
    }
  }
}
