/** Tasks as owners of memory: the memory parts of kernel/fork.c and kernel/exit.c. */
module Processes {
  import opened Basics
  import opened Bytes
  import opened Memory

  /** A slot of task[]: the page of its task_struct, and its code and data limits
      in directory entries (4 MB each). */
  datatype Task = NoTask | Live(frame: int, code: int, data: int) | Zombie(frame: int)

  datatype Sys = Sys(mem: Mem, tasks: seq<Task>)

  function Base(k: int): int { k * SLOT_DIRS }

  // find_empty_process: the first free slot from 1 on; SLOTS when there is none.
  function FirstFree(tasks: seq<Task>, k: int): (r: int)
    requires 0 <= k <= |tasks|
    ensures k <= r <= |tasks|
    ensures r < |tasks| ==> tasks[r].NoTask?
    ensures forall j :: k <= j < r ==> !tasks[j].NoTask?
    decreases |tasks| - k
  {
    if k == |tasks| || tasks[k].NoTask? then k else FirstFree(tasks, k + 1)
  }

  // Ok: the call succeeded; Again: fork returned -EAGAIN; Killed: out of memory, the task exits;
  // Skipped: the event could not happen.
  datatype Result = Ok | Again | Killed | Skipped | Panicked

  // Entries of a table that copy_page_tables copies: 640 kB of the kernel, else all of them.
  function EntriesFrom(cur: int): int { if cur == 0 then 0xA0 else PT }

  // copy_mem: on -ENOMEM the target is freed again.
  function CopyMem(m: Mem, cur: int, nr: int, n: int): (r: Outcome)
    requires Sound(m) && 0 <= cur < SLOTS && 0 <= nr < SLOTS && 0 <= n <= SLOT_DIRS
    ensures !r.Panic? ==> Sound(r.mem)
  {
    match CopyTables(m, Base(cur), Base(nr), n, EntriesFrom(cur))
    case NoMemory(m1) =>
      (match FreeTables(m1, Base(nr), n) case None => Panic case Some(m2) => NoMemory(m2))
    case r => r
  }

  // The memory part of copy_process.
  function Fork(s: Sys, cur: int): (r: (Sys, Result))
    requires Sound(s.mem) && |s.tasks| == SLOTS && 0 <= cur < SLOTS && s.tasks[cur].Live?
    requires 0 <= s.tasks[cur].data <= SLOT_DIRS
  {
    var nr := FirstFree(s.tasks, 1);
    if nr == SLOTS then (s, Again)
    else
      var (m, p) := GetFree(s.mem);
      if p == 0 then (s.(mem := m), Again)
      else
        var t := s.tasks[cur];
        match CopyMem(m, cur, nr, t.data)
        case Panic => (s, Panicked)
        case Done(m1) => (Sys(m1, s.tasks[nr := Live(p, t.code, t.data)]), Ok)
        case NoMemory(m1) =>
          match FreePage(m1, p)
          case None => (s, Panicked)
          case Some(m2) => (s.(mem := m2), Again)
  }

  // The memory part of do_exit.
  function Exit(s: Sys, cur: int): (r: (Sys, Result))
    requires Sound(s.mem) && |s.tasks| == SLOTS && 1 <= cur < SLOTS && s.tasks[cur].Live?
    requires 0 <= s.tasks[cur].code <= s.tasks[cur].data <= SLOT_DIRS
  {
    var t := s.tasks[cur];
    match FreeTables(s.mem, Base(cur), t.code)
    case None => (s, Panicked)
    case Some(m1) =>
      match FreeTables(m1, Base(cur), t.data)
      case None => (s, Panicked)
      case Some(m2) => (Sys(m2, s.tasks[cur := Zombie(t.frame)]), Ok)
  }

  // release, called by the father's waitpid.
  function Release(s: Sys, k: int): (r: (Sys, Result))
    requires Sound(s.mem) && |s.tasks| == SLOTS && 1 <= k < SLOTS && s.tasks[k].Zombie?
  {
    match FreePage(s.mem, s.tasks[k].frame)
    case None => (s, Panicked)
    case Some(m) => (Sys(m, s.tasks[k := NoTask]), Ok)
  }

  // A user-mode read of a page outside the executable: do_no_page gives it a zero page.
  function Touch(s: Sys, cur: int, d: int, i: int): (r: (Sys, Result))
    requires Sound(s.mem) && |s.tasks| == SLOTS && 1 <= cur < SLOTS && s.tasks[cur].Live?
    requires 0 <= s.tasks[cur].code <= s.tasks[cur].data <= SLOT_DIRS && 0 <= d < s.tasks[cur].data && 0 <= i < PT
  {
    if Entry(s.mem, Base(cur) + d, i).Present? then (s, Ok)
    else match GetEmpty(s.mem, Base(cur) + d, i)
      case Panic => (s, Panicked)
      case Done(m) => (s.(mem := m), Ok)
      case NoMemory(m) => var (s', r) := Exit(s.(mem := m), cur); (s', if r == Ok then Killed else r)
  }

  // A user-mode byte write at offset off of the linear page (d, i) of the task.
  function Write(s: Sys, cur: int, d: int, i: int, off: int, b: byte): (r: (Sys, Result))
    requires Sound(s.mem) && |s.tasks| == SLOTS && 1 <= cur < SLOTS && s.tasks[cur].Live?
    requires 0 <= s.tasks[cur].code <= s.tasks[cur].data <= SLOT_DIRS && 0 <= d < s.tasks[cur].data && 0 <= i < PT
    requires 0 <= off < PAGE_SIZE
  {
    match WriteFault(s.mem, Base(cur) + d, i)
    case Panic => (s, Panicked)
    case Done(m) => (s.(mem := Store(m, Base(cur) + d, i, off, b)), Ok)
    case NoMemory(m) => var (s', r) := Exit(s.(mem := m), cur); (s', if r == Ok then Killed else r)
  }
}
