/**
 * User-level copy-on-write `fork` (lib/fork.c): the page-fault handler that gives a process its
 * own writable copy of a copy-on-write page, the permission policy by which `duppage` shares a
 * page with the child, and the walk of `fork` over the user address space.
 *
 * The system calls are not modelled: each routine yields the calls it issues, in order, and what
 * the kernel answers to a call is a parameter `sys`. The read-only page-table views `uvpd` and
 * `uvpt` are parameters `pd` and `pt` (entry by directory index and by page number).
 */
module Fork {
  import opened Outcomes
  import opened Bits
  import opened Mmu

  /** Copy-on-write: one of the PTE bits left to user processes. */
  const PTE_COW: bv32 := 0x800

  /** The page-fault error-code bit of a write access. */
  const FEC_WR: bv32 := 0x2

  /** The top of the user address space that `fork` copies, and of the user exception stack. */
  const UTOP: nat := 0xeec0_0000
  const UXSTACKTOP: nat := UTOP

  /** The page of the user exception stack, which is never shared with the child. */
  const EXCEPTION_STACK: nat := UXSTACKTOP - PGSIZE

  /** The scratch page where the fault handler builds its copy. */
  const PFTEMP: nat := 0x7f_f000

  /** A system call as the library issues it; environment 0 is the caller itself. */
  datatype Syscall =
    | PageAlloc(env: int, va: nat, perm: bv32)
    | PageMap(srcEnv: int, srcVa: nat, dstEnv: int, dstVa: nat, perm: bv32)
    | PageUnmap(env: int, va: nat)
    | SetPgfaultUpcall(env: int)
    | MakeRunnable(env: int)

  // ---------------------------------------------------------------------------------------------
  // Issuing a sequence of calls

  /**
   * The calls of `calls` that are issued when the routine stops at the first one that fails
   * (returns a negative value).
   */
  function Issue(calls: seq<Syscall>, sys: Syscall -> int): (issued: seq<Syscall>)
    ensures |issued| <= |calls| && issued == calls[..|issued|]
    ensures forall k :: 0 <= k < |issued| - 1 ==> sys(issued[k]) >= 0
    ensures |issued| < |calls| ==> issued != [] && sys(issued[|issued| - 1]) < 0
    ensures calls != [] ==> issued != []
  {
    if calls == [] then []
    else if sys(calls[0]) < 0 then [calls[0]]
    else [calls[0]] + Issue(calls[1..], sys)
  }

  /** The result of the failed call that ended `issued`, or 0 when every call succeeded. */
  function FirstError(issued: seq<Syscall>, sys: Syscall -> int): int {
    if issued != [] && sys(issued[|issued| - 1]) < 0 then sys(issued[|issued| - 1]) else 0
  }

  /** Only calls of `calls` are issued. */
  lemma {:induction false} IssuedAreCalls(calls: seq<Syscall>, sys: Syscall -> int)
    ensures forall c :: c in Issue(calls, sys) ==> c in calls
  {
    if calls != [] && sys(calls[0]) >= 0 {
      IssuedAreCalls(calls[1..], sys);
    }
  }

  /** Either every call is issued and succeeds, or the issued calls end with the first failure. */
  lemma {:induction false} IssueStopsAtFirstFailure(calls: seq<Syscall>, sys: Syscall -> int)
    ensures FirstError(Issue(calls, sys), sys) == 0 ==>
              Issue(calls, sys) == calls && forall k :: 0 <= k < |calls| ==> sys(calls[k]) >= 0
    ensures FirstError(Issue(calls, sys), sys) < 0 ==>
              exists k :: 0 <= k < |calls| && Issue(calls, sys) == calls[..k + 1] &&
                          FirstError(Issue(calls, sys), sys) == sys(calls[k]) &&
                          forall j :: 0 <= j < k ==> sys(calls[j]) >= 0
    ensures FirstError(Issue(calls, sys), sys) <= 0
  {
    var issued := Issue(calls, sys);
    if issued != [] && sys(issued[|issued| - 1]) < 0 {
      var k := |issued| - 1;
      assert issued == calls[..k + 1];
    } else if |issued| < |calls| {
      assert false;
    } else {
      assert issued == calls;
    }
  }

  // ---------------------------------------------------------------------------------------------
  // pgfault

  /** A page fault as the handler sees it: the faulting address and the error code. */
  datatype Fault = Fault(va: nat, err: bv32)

  /** The handler's guard: a write to a present page marked copy-on-write. */
  predicate IsCowFault(f: Fault, pd: nat -> bv32, pt: nat -> bv32) {
    Has(f.err, FEC_WR) && Has(pd(DirIndex(f.va)), PTE_P) &&
    Has(pt(PageNumber(f.va)), PTE_P) && Has(pt(PageNumber(f.va)), PTE_COW)
  }

  /**
   * The calls that make the faulting page private: allocate a writable page at `PFTEMP` (the old
   * contents are copied there), map it writable over the page holding `va`, unmap `PFTEMP`.
   */
  function PgfaultCalls(va: nat): seq<Syscall> {
    [PageAlloc(0, PFTEMP, PTE_P | PTE_U | PTE_W),
     PageMap(0, PFTEMP, 0, RoundDown(va), PTE_P | PTE_U | PTE_W),
     PageUnmap(0, PFTEMP)]
  }

  /** The copy replaces the whole page holding the fault, writable, and the scratch page is released last. */
  lemma PgfaultRemapsFaultingPage(va: nat)
    ensures PgfaultCalls(va)[1].dstVa % PGSIZE == 0
    ensures PgfaultCalls(va)[1].dstVa <= va < PgfaultCalls(va)[1].dstVa + PGSIZE
    ensures Has(PgfaultCalls(va)[1].perm, PTE_W) && !Has(PgfaultCalls(va)[1].perm, PTE_COW)
    ensures PgfaultCalls(va)[2] == PageUnmap(0, PgfaultCalls(va)[0].va)
  {
  }

  /**
   * `pgfault`: panics unless the fault is a write to a copy-on-write page, and panics on a failed
   * call; `calls` are the calls issued.
   */
  method Pgfault(f: Fault, pd: nat -> bv32, pt: nat -> bv32, sys: Syscall -> int)
    returns (calls: seq<Syscall>, o: Outcome<()>)
    ensures !IsCowFault(f, pd, pt) ==> o == Panic && calls == []
    ensures IsCowFault(f, pd, pt) ==> calls == Issue(PgfaultCalls(f.va), sys)
    ensures IsCowFault(f, pd, pt) && FirstError(calls, sys) < 0 ==> o == Panic
    ensures IsCowFault(f, pd, pt) && FirstError(calls, sys) == 0 ==> o == Ret(())
  {
    if !(Has(f.err, FEC_WR) && Has(pd(DirIndex(f.va)), PTE_P) &&
         Has(pt(PageNumber(f.va)), PTE_P) && Has(pt(PageNumber(f.va)), PTE_COW)) {
      return [], Panic;
    }
    var addr := RoundDown(f.va);
    var call := PageAlloc(0, PFTEMP, PTE_P | PTE_U | PTE_W);
    calls := [call];
    if sys(call) < 0 {
      return calls, Panic;
    }
    call := PageMap(0, PFTEMP, 0, addr, PTE_P | PTE_U | PTE_W);
    calls := calls + [call];
    if sys(call) < 0 {
      return calls, Panic;
    }
    call := PageUnmap(0, PFTEMP);
    calls := calls + [call];
    if sys(call) < 0 {
      return calls, Panic;
    }
    return calls, Ret(());
  }

  // ---------------------------------------------------------------------------------------------
  // duppage

  /**
   * The calls by which `duppage` shares page `pn`, whose entry is `pte`, with `envid`: a shared
   * page keeps its own system-call bits; a writable or copy-on-write page is mapped copy-on-write
   * into the child and then again into the caller; any other page is mapped read-only into the
   * child.
   */
  function DupCalls(envid: int, pn: nat, pte: bv32): seq<Syscall> {
    var va := pn * PGSIZE;
    if Has(pte, PTE_SHARE) then
      [PageMap(0, va, envid, va, pte & PTE_SYSCALL)]
    else if Has(pte, PTE_W) || Has(pte, PTE_COW) then
      [PageMap(0, va, envid, va, PTE_P | PTE_U | PTE_COW), PageMap(0, va, 0, va, PTE_P | PTE_U | PTE_COW)]
    else
      [PageMap(0, va, envid, va, PTE_P | PTE_U)]
  }

  /** The calls a routine issued, and what it returns. */
  datatype Run = Run(calls: seq<Syscall>, r: int)

  /** `duppage`: the calls issued, and the first negative result or 0. */
  function Duppage(envid: int, pn: nat, pte: bv32, sys: Syscall -> int): Run {
    var issued := Issue(DupCalls(envid, pn, pte), sys);
    Run(issued, FirstError(issued, sys))
  }

  /** A shared page goes to the child with its own bits masked to the system-call bits, whatever else it has. */
  lemma SharedPageKeepsItsBits(envid: int, pn: nat, pte: bv32)
    requires Has(pte, PTE_SHARE)
    ensures DupCalls(envid, pn, pte) == [PageMap(0, pn * PGSIZE, envid, pn * PGSIZE, pte & PTE_SYSCALL)]
  {
  }

  /** A private writable or copy-on-write page becomes copy-on-write and read-only, in the child first and then in the caller. */
  lemma WritablePageBecomesCow(envid: int, pn: nat, pte: bv32)
    requires !Has(pte, PTE_SHARE) && (Has(pte, PTE_W) || Has(pte, PTE_COW))
    ensures |DupCalls(envid, pn, pte)| == 2
    ensures DupCalls(envid, pn, pte)[0].dstEnv == envid && DupCalls(envid, pn, pte)[1].dstEnv == 0
    ensures forall c :: c in DupCalls(envid, pn, pte) ==> Has(c.perm, PTE_COW) && !Has(c.perm, PTE_W)
  {
  }

  /** Any other page is mapped read-only into the child alone; the caller's mapping is untouched. */
  lemma ReadOnlyPageGoesToChildOnly(envid: int, pn: nat, pte: bv32)
    requires !Has(pte, PTE_SHARE) && !Has(pte, PTE_W) && !Has(pte, PTE_COW)
    ensures forall c :: c in DupCalls(envid, pn, pte) ==> c.dstEnv == envid && c.perm == PTE_P | PTE_U
  {
  }

  /**
   * Every call maps the page onto itself from the caller, and only a shared page can be mapped
   * writable.
   */
  lemma DupCallsMapThePage(envid: int, pn: nat, pte: bv32)
    ensures DupCalls(envid, pn, pte) != []
    ensures forall c :: c in DupCalls(envid, pn, pte) ==>
              c.PageMap? && c.srcEnv == 0 && c.srcVa == c.dstVa == pn * PGSIZE &&
              (c.dstEnv == envid || c.dstEnv == 0) &&
              (Has(c.perm, PTE_W) ==> Has(pte, PTE_SHARE))
  {
  }

  /** `duppage` returns 0 when all its calls succeed, and otherwise the result of the first that failed. */
  lemma DuppageResult(envid: int, pn: nat, pte: bv32, sys: Syscall -> int)
    ensures Duppage(envid, pn, pte, sys).r <= 0
    ensures Duppage(envid, pn, pte, sys).r == 0 ==>
              Duppage(envid, pn, pte, sys).calls == DupCalls(envid, pn, pte) &&
              forall c :: c in DupCalls(envid, pn, pte) ==> sys(c) >= 0
    ensures Duppage(envid, pn, pte, sys).r < 0 ==>
              exists k :: 0 <= k < |DupCalls(envid, pn, pte)| &&
                          Duppage(envid, pn, pte, sys).calls == DupCalls(envid, pn, pte)[..k + 1] &&
                          Duppage(envid, pn, pte, sys).r == sys(DupCalls(envid, pn, pte)[k])
  {
    IssueStopsAtFirstFailure(DupCalls(envid, pn, pte), sys);
  }

  // ---------------------------------------------------------------------------------------------
  // fork

  /** The number of pages below `UTOP`: `fork` walks page numbers 0 to `USER_PAGES - 1`. */
  const USER_PAGES: nat := 0xeec00

  /** The page number of the page at `pn * PGSIZE` is `pn`. */
  lemma PageNumberOfPage(pn: nat)
    ensures PageNumber(pn * PGSIZE) == pn
  {
  }

  /** The page number of the user exception stack. */
  const EXCEPTION_STACK_PAGE: nat := USER_PAGES - 1

  /**
   * The page at `pn * PGSIZE` lies under directory entry `pn / 1024`, and it is the exception
   * stack exactly when `pn` is the exception stack's page number.
   */
  lemma DirectoryOfPage(pn: nat)
    ensures DirIndex(pn * PGSIZE) == pn / 1024
    ensures pn * PGSIZE == EXCEPTION_STACK <==> pn == EXCEPTION_STACK_PAGE
  {
  }

  /**
   * `fork` duplicates page `pn`: not the exception stack, and only a present page under a present
   * directory entry.
   */
  predicate Duplicated(pd: nat -> bv32, pt: nat -> bv32, pn: nat) {
    pn != EXCEPTION_STACK_PAGE && Has(pd(pn / 1024), PTE_P) && Has(pt(pn), PTE_P)
  }

  /**
   * A walk over the user pages from `pn` on: `page(p)` runs for each page `p` that `pick`
   * selects, and the walk stops at the first run with a negative result, which it returns.
   */
  function WalkFrom(pick: nat -> bool, page: nat -> Run, pn: nat): Run
    decreases USER_PAGES - pn
  {
    if pn >= USER_PAGES then Run([], 0)
    else
      var rest := WalkFrom(pick, page, pn + 1);
      if pick(pn) then
        if page(pn).r < 0 then page(pn) else Run(page(pn).calls + rest.calls, rest.r)
      else rest
  }

  /** Without an error, the walk from `pn` ends with the whole walk from any later page. */
  lemma {:induction false} WalkSuffix(pick: nat -> bool, page: nat -> Run, pn: nat, later: nat) returns (front: seq<Syscall>)
    requires pn <= later <= USER_PAGES
    requires WalkFrom(pick, page, pn).r == 0
    ensures WalkFrom(pick, page, later).r == 0
    ensures WalkFrom(pick, page, pn).calls == front + WalkFrom(pick, page, later).calls
    decreases later - pn
  {
    if pn == later {
      front := [];
    } else {
      var rest := WalkSuffix(pick, page, pn + 1, later);
      front := (if pick(pn) then page(pn).calls else []) + rest;
    }
  }

  /**
   * One page of the walk: `d` is what that page contributes (its run, or nothing when it is not
   * picked); a failed run ends the walk, anything else is followed by the rest of the walk.
   */
  lemma WalkUnfold(pick: nat -> bool, page: nat -> Run, pn: nat, d: Run)
    requires pn < USER_PAGES && d == (if pick(pn) then page(pn) else Run([], 0))
    ensures d.r < 0 ==> WalkFrom(pick, page, pn) == d
    ensures d.r >= 0 ==> WalkFrom(pick, page, pn).calls == d.calls + WalkFrom(pick, page, pn + 1).calls &&
                         WalkFrom(pick, page, pn).r == WalkFrom(pick, page, pn + 1).r
  {
  }

  /**
   * One step of a walk that has already issued `done`: after the page `pn` runs as `d`, either
   * the walk is over with `d`'s error, or what is issued so far still leads to the whole walk.
   */
  lemma WalkAdvance(pick: nat -> bool, page: nat -> Run, pn: nat, d: Run, done: seq<Syscall>, total: Run)
    requires pn < USER_PAGES && d == (if pick(pn) then page(pn) else Run([], 0))
    requires done + WalkFrom(pick, page, pn).calls == total.calls && WalkFrom(pick, page, pn).r == total.r
    ensures d.r < 0 ==> done + d.calls == total.calls && d.r == total.r
    ensures d.r >= 0 ==> (done + d.calls) + WalkFrom(pick, page, pn + 1).calls == total.calls &&
                         WalkFrom(pick, page, pn + 1).r == total.r
  {
    WalkUnfold(pick, page, pn, d);
    if d.r >= 0 {
      assert (done + d.calls) + WalkFrom(pick, page, pn + 1).calls == done + (d.calls + WalkFrom(pick, page, pn + 1).calls);
    }
  }

  /**
   * A walk from `pn` that fails stops at the first picked page `p` whose run failed: it returns
   * that run's result, its calls end with that run's calls, and every picked page before `p`
   * ran without error.
   */
  lemma {:induction false} WalkStopsAtFirstFailure(pick: nat -> bool, page: nat -> Run, pn: nat) returns (p: nat, front: seq<Syscall>)
    requires WalkFrom(pick, page, pn).r < 0
    ensures pn <= p < USER_PAGES && pick(p) && page(p).r < 0
    ensures WalkFrom(pick, page, pn).r == page(p).r
    ensures WalkFrom(pick, page, pn).calls == front + page(p).calls
    ensures forall q :: pn <= q < p && pick(q) ==> page(q).r >= 0
    decreases USER_PAGES - pn
  {
    if pick(pn) && page(pn).r < 0 {
      p, front := pn, [];
    } else {
      p, front := WalkStopsAtFirstFailure(pick, page, pn + 1);
      if pick(pn) {
        front := page(pn).calls + front;
      }
    }
  }

  /** The pages `fork` shares with the child. */
  function Pick(pd: nat -> bv32, pt: nat -> bv32): nat -> bool {
    (pn: nat) => Duplicated(pd, pt, pn)
  }

  /** What `duppage` does to each page. */
  function DupPage(child: int, pt: nat -> bv32, sys: Syscall -> int): nat -> Run {
    (pn: nat) => Duppage(child, pn, pt(pn), sys)
  }

  /**
   * The walk of `fork` from page `pn` up to `UTOP`: the calls that `duppage` issues for each
   * duplicated page, stopping at the first `duppage` that fails, with its result.
   */
  function DupFrom(child: int, pd: nat -> bv32, pt: nat -> bv32, sys: Syscall -> int, pn: nat): Run {
    WalkFrom(Pick(pd, pt), DupPage(child, pt, sys), pn)
  }

  /**
   * Every call of a walk from `pn` is a call of a page it picked, at or after `pn`, and the walk
   * returns 0 or the negative result of one of those pages.
   */
  lemma {:induction false} WalkCallsComeFromPickedPages(pick: nat -> bool, page: nat -> Run, pn: nat)
    ensures WalkFrom(pick, page, pn).r <= 0
    ensures forall c :: c in WalkFrom(pick, page, pn).calls ==>
              exists p :: pn <= p < USER_PAGES && pick(p) && c in page(p).calls
    decreases USER_PAGES - pn
  {
    if pn < USER_PAGES {
      WalkCallsComeFromPickedPages(pick, page, pn + 1);
      forall c | c in WalkFrom(pick, page, pn).calls
        ensures exists p :: pn <= p < USER_PAGES && pick(p) && c in page(p).calls
      {
        if pick(pn) && c in page(pn).calls {
        } else {
          assert c in WalkFrom(pick, page, pn + 1).calls;
        }
      }
    }
  }

  /**
   * Every call of the walk maps a duplicated page below `UTOP` onto itself, never the exception
   * stack, and writable only when the page is shared; the walk returns 0 or a negative error.
   */
  lemma DupFromMapsOnlyDuplicatedPages(child: int, pd: nat -> bv32, pt: nat -> bv32,
                                       sys: Syscall -> int, pn: nat)
    ensures DupFrom(child, pd, pt, sys, pn).r <= 0
    ensures forall c :: c in DupFrom(child, pd, pt, sys, pn).calls ==>
              c.PageMap? && c.srcEnv == 0 && c.srcVa == c.dstVa &&
              c.srcVa == PageNumber(c.srcVa) * PGSIZE && pn <= PageNumber(c.srcVa) < USER_PAGES &&
              Duplicated(pd, pt, PageNumber(c.srcVa)) &&
              (Has(c.perm, PTE_W) ==> Has(pt(PageNumber(c.srcVa)), PTE_SHARE))
  {
    var pick, page := Pick(pd, pt), DupPage(child, pt, sys);
    WalkCallsComeFromPickedPages(pick, page, pn);
    forall c | c in DupFrom(child, pd, pt, sys, pn).calls
      ensures c.PageMap? && c.srcEnv == 0 && c.srcVa == c.dstVa &&
              c.srcVa == PageNumber(c.srcVa) * PGSIZE && pn <= PageNumber(c.srcVa) < USER_PAGES &&
              Duplicated(pd, pt, PageNumber(c.srcVa)) &&
              (Has(c.perm, PTE_W) ==> Has(pt(PageNumber(c.srcVa)), PTE_SHARE))
    {
      var p :| pn <= p < USER_PAGES && pick(p) && c in page(p).calls;
      PageNumberOfPage(p);
      DupCallsMapThePage(child, p, pt(p));
      IssuedAreCalls(DupCalls(child, p, pt(p)), sys);
    }
  }

  /**
   * A failing walk returns the error of the first duplicated page whose `duppage` failed; every
   * duplicated page before it had all its calls issued and succeed.
   */
  lemma DupFromStopsAtFirstFailure(child: int, pd: nat -> bv32, pt: nat -> bv32,
                                   sys: Syscall -> int, pn: nat) returns (p: nat)
    requires DupFrom(child, pd, pt, sys, pn).r < 0
    ensures pn <= p < USER_PAGES && Duplicated(pd, pt, p)
    ensures DupFrom(child, pd, pt, sys, pn).r == Duppage(child, p, pt(p), sys).r
    ensures forall q :: pn <= q < p && Duplicated(pd, pt, q) ==>
              Duppage(child, q, pt(q), sys).r == 0 &&
              forall c :: c in DupCalls(child, q, pt(q)) ==> sys(c) >= 0
  {
    var front;
    p, front := WalkStopsAtFirstFailure(Pick(pd, pt), DupPage(child, pt, sys), pn);
    forall q | pn <= q < p && Duplicated(pd, pt, q)
      ensures Duppage(child, q, pt(q), sys).r == 0 &&
              forall c :: c in DupCalls(child, q, pt(q)) ==> sys(c) >= 0
    {
      assert Pick(pd, pt)(q);
      DuppageResult(child, q, pt(q), sys);
    }
  }

  /**
   * Every page below `UTOP` that is duplicated is shared with the child, unless an earlier
   * `duppage` failed: each call `duppage` makes for it is issued and succeeds.
   */
  lemma DupFromVisitsEveryPage(child: int, pd: nat -> bv32, pt: nat -> bv32,
                               sys: Syscall -> int, pn: nat, page: nat)
    requires pn <= page < USER_PAGES && Duplicated(pd, pt, page)
    requires DupFrom(child, pd, pt, sys, pn).r == 0
    ensures |DupCalls(child, page, pt(page))| > 0
    ensures forall c :: c in DupCalls(child, page, pt(page)) ==>
              c in DupFrom(child, pd, pt, sys, pn).calls && sys(c) >= 0
  {
    var front := WalkSuffix(Pick(pd, pt), DupPage(child, pt, sys), pn, page);
    var d := Duppage(child, page, pt(page), sys);
    DuppageResult(child, page, pt(page), sys);
    DupCallsMapThePage(child, page, pt(page));
    var tail := DupFrom(child, pd, pt, sys, page).calls;
    assert tail == d.calls + DupFrom(child, pd, pt, sys, page + 1).calls;
    assert d.r == 0 && d.calls == DupCalls(child, page, pt(page));
    forall c | c in DupCalls(child, page, pt(page))
      ensures c in DupFrom(child, pd, pt, sys, pn).calls
    {
      assert c in tail;
    }
  }

  /** The calls that finish the child: a fresh exception stack, the fault upcall, and making it runnable. */
  function FinishCalls(child: int): seq<Syscall> {
    [PageAlloc(child, EXCEPTION_STACK, PTE_P | PTE_U | PTE_W), SetPgfaultUpcall(child), MakeRunnable(child)]
  }

  /**
   * `fork`, from the result `exofork` of `sys_exofork` on: the calls issued (in the parent) and
   * what `fork` returns. Installing the fault handler before `sys_exofork` is not modelled.
   */
  method ForkFrom(exofork: int, pd: nat -> bv32, pt: nat -> bv32, sys: Syscall -> int)
    returns (calls: seq<Syscall>, o: Outcome<int>)
    ensures exofork < 0 ==> o == Panic && calls == []
    ensures exofork == 0 ==> o == Ret(0) && calls == []
    ensures exofork > 0 && DupFrom(exofork, pd, pt, sys, 0).r < 0 ==>
              o == Ret(DupFrom(exofork, pd, pt, sys, 0).r) && calls == DupFrom(exofork, pd, pt, sys, 0).calls
    ensures exofork > 0 && DupFrom(exofork, pd, pt, sys, 0).r == 0 ==>
              calls == DupFrom(exofork, pd, pt, sys, 0).calls + Issue(FinishCalls(exofork), sys) &&
              (FirstError(Issue(FinishCalls(exofork), sys), sys) == 0 ==> o == Ret(exofork)) &&
              (FirstError(Issue(FinishCalls(exofork), sys), sys) < 0 ==> o == Panic)
  {
    var envid := exofork;
    if envid < 0 {
      return [], Panic;
    }
    if envid == 0 {
      return [], Ret(0);
    }
    var r;
    calls, r := DupAll(envid, pd, pt, sys);
    if r < 0 {
      return calls, Ret(r);
    }
    calls, o := Finish(envid, calls, sys);
  }

  /**
   * The loop of `fork` over the pages below `UTOP`: the calls issued, and the first negative
   * `duppage` result or 0.
   */
  method DupAll(envid: int, pd: nat -> bv32, pt: nat -> bv32, sys: Syscall -> int) returns (calls: seq<Syscall>, r: int)
    ensures calls == DupFrom(envid, pd, pt, sys, 0).calls && r == DupFrom(envid, pd, pt, sys, 0).r
  {
    calls, r := DupPages(envid, pd, pt, sys, Pick(pd, pt), DupPage(envid, pt, sys));
  }

  /**
   * The loop of `fork` against the walk over `pick` and `page`, which stand for the pages that
   * are duplicated and for what `duppage` does to them.
   */
  method DupPages(envid: int, pd: nat -> bv32, pt: nat -> bv32, sys: Syscall -> int,
                  ghost pick: nat -> bool, ghost page: nat -> Run) returns (calls: seq<Syscall>, r: int)
    requires forall pn: nat {:trigger Duplicated(pd, pt, pn)} ::
               pick(pn) == Duplicated(pd, pt, pn) && page(pn) == Duppage(envid, pn, pt(pn), sys)
    ensures calls == WalkFrom(pick, page, 0).calls && r == WalkFrom(pick, page, 0).r
  {
    calls := [];
    var addr := 0;
    ghost var pn := 0;
    ghost var total := WalkFrom(pick, page, 0);
    while addr < UTOP
      invariant addr == pn * PGSIZE && pn <= USER_PAGES
      invariant calls + WalkFrom(pick, page, pn).calls == total.calls && WalkFrom(pick, page, pn).r == total.r
      decreases UTOP - addr
    {
      var next := DupTurn(envid, pd, pt, sys, pick, page, addr, pn, calls, total);
      calls := next.calls;
      if next.r < 0 {
        return calls, next.r;
      }
      addr, pn := addr + PGSIZE, pn + 1;
    }
    r := 0;
  }

  /**
   * One turn of the loop of `fork` after the calls `done`: the page `addr` is duplicated if it
   * should be, and the walk either stops with its error or goes on from the next page.
   */
  method DupTurn(envid: int, pd: nat -> bv32, pt: nat -> bv32, sys: Syscall -> int,
                 ghost pick: nat -> bool, ghost page: nat -> Run, addr: nat, ghost pn: nat,
                 done: seq<Syscall>, ghost total: Run) returns (next: Run)
    requires forall pn: nat {:trigger Duplicated(pd, pt, pn)} ::
               pick(pn) == Duplicated(pd, pt, pn) && page(pn) == Duppage(envid, pn, pt(pn), sys)
    requires addr == pn * PGSIZE && pn < USER_PAGES
    requires done + WalkFrom(pick, page, pn).calls == total.calls && WalkFrom(pick, page, pn).r == total.r
    ensures next.r < 0 ==> next == total
    ensures next.r >= 0 ==> next.r == 0 && next.calls + WalkFrom(pick, page, pn + 1).calls == total.calls &&
                            WalkFrom(pick, page, pn + 1).r == total.r
  {
    var d := DupPageAt(envid, pd, pt, sys, addr, pn);
    WalkAdvance(pick, page, pn, d, done, total);
    next := Run(done + d.calls, if d.r < 0 then d.r else 0);
  }

  /**
   * One turn of the loop of `fork`, at the page `addr`: the exception stack is skipped, and a
   * present page under a present directory entry goes through `duppage`.
   */
  method DupPageAt(envid: int, pd: nat -> bv32, pt: nat -> bv32, sys: Syscall -> int, addr: nat, ghost pn: nat)
    returns (d: Run)
    requires addr == pn * PGSIZE
    ensures d == (if Duplicated(pd, pt, pn) then Duppage(envid, pn, pt(pn), sys) else Run([], 0))
  {
    PageNumberOfPage(pn);
    DirectoryOfPage(pn);
    if addr == UXSTACKTOP - PGSIZE {
      return Run([], 0);
    }
    if Has(pd(DirIndex(addr)), PTE_P) && Has(pt(PageNumber(addr)), PTE_P) {
      d := Duppage(envid, PageNumber(addr), pt(PageNumber(addr)), sys);
    } else {
      d := Run([], 0);
    }
  }

  /** The last three calls of `fork`, each of which panics on failure. */
  method Finish(envid: int, before: seq<Syscall>, sys: Syscall -> int) returns (calls: seq<Syscall>, o: Outcome<int>)
    ensures calls == before + Issue(FinishCalls(envid), sys)
    ensures FirstError(Issue(FinishCalls(envid), sys), sys) == 0 ==> o == Ret(envid)
    ensures FirstError(Issue(FinishCalls(envid), sys), sys) < 0 ==> o == Panic
  {
    var call := PageAlloc(envid, EXCEPTION_STACK, PTE_P | PTE_U | PTE_W);
    calls := before + [call];
    if sys(call) < 0 {
      return calls, Panic;
    }
    call := SetPgfaultUpcall(envid);
    calls := calls + [call];
    if sys(call) < 0 {
      return calls, Panic;
    }
    call := MakeRunnable(envid);
    calls := calls + [call];
    if sys(call) < 0 {
      return calls, Panic;
    }
    return calls, Ret(envid);
  }

  /**
   * What `fork` returns: 0 in the child; in the parent the child's id once every page is shared
   * and the child set up, or the first failing `duppage` error, which is negative.
   */
  lemma ForkReturns(exofork: int, pd: nat -> bv32, pt: nat -> bv32, sys: Syscall -> int)
    requires exofork > 0
    ensures DupFrom(exofork, pd, pt, sys, 0).r != 0 ==> DupFrom(exofork, pd, pt, sys, 0).r < 0
    ensures FirstError(Issue(FinishCalls(exofork), sys), sys) <= 0
  {
    DupFromMapsOnlyDuplicatedPages(exofork, pd, pt, sys, 0);
    IssueStopsAtFirstFailure(FinishCalls(exofork), sys);
  }
}
