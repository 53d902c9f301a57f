/** The reference counts of open files and of inodes: fs/open.c, fs/fcntl.c, sys_pipe, and what fork,
    execve and exit do with them, as functions of the tables. */
module References {
  import opened Wrappers

  /** struct file; ready tells that f_inode has been stored since the entry was taken (sys_open takes
      the entry before it looks the file up). */
  datatype File = File(count: int, inode: int, ready: bool)

  // The parts of a task that refer to files and inodes: filp, close_on_exec, pwd, root, executable.
  datatype Task = Task(filp: seq<Option<int>>, cloexec: set<int>, pwd: Option<int>, root: Option<int>, exe: Option<int>)

  // icount is i_count of every inode in memory, extra the part of it that anything else accounts for.
  datatype Tables = Tables(files: seq<File>, tasks: seq<Option<Task>>, icount: seq<int>, extra: seq<int>)

  const NR_OPEN: int := 20

  // ---------------------------------------------------------------- counting

  function One(b: bool): int { if b then 1 else 0 }

  // How often file f is among the descriptors.
  function Slots(filp: seq<Option<int>>, f: int): (n: nat)
    ensures n <= |filp|
  {
    if filp == [] then 0 else Slots(filp[..|filp| - 1], f) + One(filp[|filp| - 1] == Some(f))
  }

  function Row(t: Option<Task>, f: int): nat { if t.Some? then Slots(t.value.filp, f) else 0 }

  function Users(tasks: seq<Option<Task>>, f: int): nat {
    if tasks == [] then 0 else Users(tasks[..|tasks| - 1], f) + Row(tasks[|tasks| - 1], f)
  }

  predicate Refers(f: File, i: int) { f.count > 0 && f.ready && f.inode == i }

  function FileRefs(files: seq<File>, i: int): nat {
    if files == [] then 0 else FileRefs(files[..|files| - 1], i) + One(Refers(files[|files| - 1], i))
  }

  function Held(t: Option<Task>, i: int): nat {
    if t.None? then 0 else One(t.value.pwd == Some(i)) + One(t.value.root == Some(i)) + One(t.value.exe == Some(i))
  }

  function TaskRefs(tasks: seq<Option<Task>>, i: int): nat {
    if tasks == [] then 0 else TaskRefs(tasks[..|tasks| - 1], i) + Held(tasks[|tasks| - 1], i)
  }

  // ---------------------------------------------------------------- the invariant

  predicate ValidInode(s: Tables, i: int) { 0 <= i < |s.icount| }

  predicate InodeOk(s: Tables, i: Option<int>) { i.Some? ==> ValidInode(s, i.value) }

  predicate GoodTask(s: Tables, t: Task) {
    && |t.filp| == NR_OPEN && InodeOk(s, t.pwd) && InodeOk(s, t.root) && InodeOk(s, t.exe)
    && (forall fd :: 0 <= fd < NR_OPEN && t.filp[fd].Some? ==> 0 <= t.filp[fd].value < |s.files|)
    && (forall fd :: fd in t.cloexec ==> 0 <= fd < NR_OPEN && t.filp[fd].Some?)
  }

  ghost predicate Shape(s: Tables) {
    && |s.extra| == |s.icount| && (forall i :: 0 <= i < |s.extra| ==> s.extra[i] >= 0)
    && (forall t :: 0 <= t < |s.tasks| && s.tasks[t].Some? ==> GoodTask(s, s.tasks[t].value))
    && (forall f :: 0 <= f < |s.files| && s.files[f].ready ==> ValidInode(s, s.files[f].inode))
    && (forall f :: 0 <= f < |s.files| && !s.files[f].ready ==> 0 <= s.files[f].count <= 1)
  }

  ghost predicate FilesCounted(s: Tables) {
    forall f :: 0 <= f < |s.files| ==> s.files[f].count == Users(s.tasks, f)
  }

  ghost predicate InodesCounted(s: Tables) {
    |s.extra| == |s.icount| &&
    forall i :: 0 <= i < |s.icount| ==> s.icount[i] == FileRefs(s.files, i) + TaskRefs(s.tasks, i) + s.extra[i]
  }

  /** Every file entry counts the descriptors that point to it, in all tasks; every inode counts the
      open files, working directories, roots and executables that point to it, and what others hold;
      and close_on_exec marks open descriptors only. */
  ghost predicate Inv(s: Tables) {
    Shape(s) && FilesCounted(s) && InodesCounted(s)
  }

  // ---------------------------------------------------------------- how the sums change

  lemma {:induction false} LemmaSlots(filp: seq<Option<int>>, k: int, v: Option<int>, f: int)
    requires 0 <= k < |filp|
    ensures Slots(filp[k := v], f) == Slots(filp, f) - One(filp[k] == Some(f)) + One(v == Some(f))
  {
    var n := |filp| - 1;
    if k < n {
      LemmaSlots(filp[..n], k, v, f);
      assert filp[k := v][..n] == filp[..n][k := v];
    } else {
      assert filp[k := v][..n] == filp[..n];
    }
  }

  lemma {:induction false} LemmaUsers(tasks: seq<Option<Task>>, k: int, v: Option<Task>, f: int)
    requires 0 <= k < |tasks|
    ensures Users(tasks[k := v], f) == Users(tasks, f) - Row(tasks[k], f) + Row(v, f)
  {
    var n := |tasks| - 1;
    if k < n {
      LemmaUsers(tasks[..n], k, v, f);
      assert tasks[k := v][..n] == tasks[..n][k := v];
    } else {
      assert tasks[k := v][..n] == tasks[..n];
    }
  }

  lemma {:induction false} LemmaTaskRefs(tasks: seq<Option<Task>>, k: int, v: Option<Task>, i: int)
    requires 0 <= k < |tasks|
    ensures TaskRefs(tasks[k := v], i) == TaskRefs(tasks, i) - Held(tasks[k], i) + Held(v, i)
    ensures TaskRefs(tasks, i) >= Held(tasks[k], i)
  {
    var n := |tasks| - 1;
    if k < n {
      LemmaTaskRefs(tasks[..n], k, v, i);
      assert tasks[k := v][..n] == tasks[..n][k := v];
    } else {
      assert tasks[k := v][..n] == tasks[..n];
    }
  }

  lemma {:induction false} LemmaFileRefs(files: seq<File>, k: int, v: File, i: int)
    requires 0 <= k < |files|
    ensures FileRefs(files[k := v], i) == FileRefs(files, i) - One(Refers(files[k], i)) + One(Refers(v, i))
    ensures FileRefs(files, i) >= One(Refers(files[k], i))
  {
    var n := |files| - 1;
    if k < n {
      LemmaFileRefs(files[..n], k, v, i);
      assert files[k := v][..n] == files[..n][k := v];
    } else {
      assert files[k := v][..n] == files[..n];
    }
  }

  lemma {:induction false} LemmaUsed(tasks: seq<Option<Task>>, k: int, f: int)
    requires 0 <= k < |tasks|
    ensures Users(tasks, f) >= Row(tasks[k], f)
  {
    if k < |tasks| - 1 {
      LemmaUsed(tasks[..|tasks| - 1], k, f);
    }
  }

  lemma {:induction false} LemmaOpen(filp: seq<Option<int>>, k: int, f: int)
    requires 0 <= k < |filp| && filp[k] == Some(f)
    ensures Slots(filp, f) >= 1
  {
    if k < |filp| - 1 {
      LemmaOpen(filp[..|filp| - 1], k, f);
    }
  }

  /** No count can reach 65536, the first value that does not fit in it: there are not enough
      descriptors. */
  lemma {:induction false} LemmaNoWrap(tasks: seq<Option<Task>>, f: int)
    requires forall t :: 0 <= t < |tasks| && tasks[t].Some? ==> |tasks[t].value.filp| == NR_OPEN
    ensures Users(tasks, f) <= NR_OPEN * |tasks|
  {
    if tasks != [] {
      LemmaNoWrap(tasks[..|tasks| - 1], f);
    }
  }

  // ---------------------------------------------------------------- steps

  // Putting v in descriptor fd of task t.
  function WithFd(s: Tables, t: int, fd: int, v: Option<int>): Tables
    requires 0 <= t < |s.tasks| && s.tasks[t].Some? && 0 <= fd < |s.tasks[t].value.filp|
  {
    var k := s.tasks[t].value;
    s.(tasks := s.tasks[t := Some(k.(filp := k.filp[fd := v], cloexec := k.cloexec - {fd}))])
  }

  function WithFile(s: Tables, f: int, v: File): Tables
    requires 0 <= f < |s.files|
  {
    s.(files := s.files[f := v])
  }

  // A task that may call: it is there, and not in the middle of opening a file.
  ghost predicate Caller(s: Tables, t: int) {
    && 0 <= t < |s.tasks| && s.tasks[t].Some?
    && forall fd, f :: 0 <= fd < |s.tasks[t].value.filp| && s.tasks[t].value.filp[fd] == Some(f) && 0 <= f < |s.files| ==> s.files[f].ready
  }

  function IPut(s: Tables, i: Option<int>): Tables
    requires InodeOk(s, i)
  {
    if i.None? then s else s.(icount := s.icount[i.value := s.icount[i.value] - 1])
  }

  function IGot(s: Tables, i: int): Tables
    requires ValidInode(s, i)
  {
    s.(icount := s.icount[i := s.icount[i] + 1])
  }

  // sys_close; false is -EINVAL.
  function Close(s: Tables, t: int, fd: int): (r: (Tables, bool))
    requires Shape(s) && Caller(s, t)
  {
    if fd < 0 || fd >= NR_OPEN then (s, false)
    else
      var k := s.tasks[t].value;
      if k.filp[fd].None? then (s.(tasks := s.tasks[t := Some(k.(cloexec := k.cloexec - {fd}))]), false)
      else
        var f := k.filp[fd].value;
        var s1 := WithFile(WithFd(s, t, fd, None), f, s.files[f].(count := s.files[f].count - 1));
        (if s1.files[f].count == 0 then IPut(s1, Some(s1.files[f].inode)) else s1, true)
  }

  // The first descriptor from arg on that is closed; NR_OPEN if there is none.
  function FirstFree(filp: seq<Option<int>>, arg: int): (fd: int)
    requires 0 <= arg <= |filp|
    ensures arg <= fd <= |filp| && (fd < |filp| ==> filp[fd].None?)
    ensures forall k :: arg <= k < fd ==> filp[k].Some?
    decreases |filp| - arg
  {
    if arg == |filp| || filp[arg].None? then arg else FirstFree(filp, arg + 1)
  }

  // The errors of dupfd.
  datatype Dup = Fd(fd: int) | EBADF | EINVAL | EMFILE

  function DupFd(s: Tables, t: int, fd: int, arg: int): (r: (Tables, Dup))
    requires Shape(s) && Caller(s, t)
  {
    var k := s.tasks[t].value;
    if fd < 0 || fd >= NR_OPEN || k.filp[fd].None? then (s, EBADF)
    else if arg < 0 || arg >= NR_OPEN then (s, EINVAL)
    else
      var to := FirstFree(k.filp, arg);
      if to >= NR_OPEN then (s, EMFILE)
      else
        var f := k.filp[fd].value;
        (WithFile(WithFd(s, t, to, Some(f)), f, s.files[f].(count := s.files[f].count + 1)), Fd(to))
  }

  function FirstUnused(files: seq<File>, i: int): (f: int)
    requires 0 <= i <= |files|
    ensures i <= f <= |files| && (f < |files| ==> files[f].count == 0)
    ensures forall k :: i <= k < f ==> files[k].count != 0
    decreases |files| - i
  {
    if i == |files| || files[i].count == 0 then i else FirstUnused(files, i + 1)
  }

  // The first part of sys_open, before it looks the file up: the descriptor and the entry it takes.
  function OpenStart(s: Tables, t: int): (r: (Tables, Option<(int, int)>))
    requires Shape(s) && Caller(s, t)
  {
    var k := s.tasks[t].value;
    var fd := FirstFree(k.filp, 0);
    if fd >= NR_OPEN then (s, None)
    else
      var s1 := s.(tasks := s.tasks[t := Some(k.(cloexec := k.cloexec - {fd}))]);
      var f := FirstUnused(s.files, 0);
      if f >= |s.files| then (s1, None)
      else (WithFile(WithFd(s, t, fd, Some(f)), f, File(1, s.files[f].inode, false)), Some((fd, f)))
  }

  // The task is between the two parts of sys_open.
  ghost predicate Opening(s: Tables, t: int, fd: int, f: int) {
    && 0 <= t < |s.tasks| && s.tasks[t].Some? && 0 <= fd < |s.tasks[t].value.filp|
    && s.tasks[t].value.filp[fd] == Some(f) && 0 <= f < |s.files| && !s.files[f].ready
  }

  function OpenFail(s: Tables, t: int, fd: int, f: int): Tables
    requires Opening(s, t, fd, f)
  {
    WithFile(WithFd(s, t, fd, None), f, s.files[f].(count := 0))
  }

  // The rest of sys_open, with the inode that was found, and counted for it.
  function OpenDone(s: Tables, t: int, fd: int, f: int, inode: int): Tables
    requires Opening(s, t, fd, f) && ValidInode(s, inode)
  {
    WithFile(IGot(s, inode), f, File(1, inode, true))
  }

  // ---------------------------------------------------------------- proofs for the steps

  lemma LemmaTaskChanged(s: Tables, t: int, k: Task)
    requires 0 <= t < |s.tasks| && s.tasks[t].Some?
    requires k.pwd == s.tasks[t].value.pwd && k.root == s.tasks[t].value.root && k.exe == s.tasks[t].value.exe
    ensures forall i :: TaskRefs(s.tasks[t := Some(k)], i) == TaskRefs(s.tasks, i)
    ensures forall f :: Users(s.tasks[t := Some(k)], f) == Users(s.tasks, f) - Slots(s.tasks[t].value.filp, f) + Slots(k.filp, f)
  {
    forall i ensures TaskRefs(s.tasks[t := Some(k)], i) == TaskRefs(s.tasks, i) {
      LemmaTaskRefs(s.tasks, t, Some(k), i);
    }
    forall f ensures Users(s.tasks[t := Some(k)], f) == Users(s.tasks, f) - Slots(s.tasks[t].value.filp, f) + Slots(k.filp, f) {
      LemmaUsers(s.tasks, t, Some(k), f);
    }
  }

  // One descriptor changes: the users of what it pointed to and of what it now points to.
  lemma LemmaWithFd(s: Tables, t: int, fd: int, v: Option<int>)
    requires 0 <= t < |s.tasks| && s.tasks[t].Some? && 0 <= fd < |s.tasks[t].value.filp|
    ensures var was := s.tasks[t].value.filp[fd];
      var r := WithFd(s, t, fd, v);
      && (forall i :: TaskRefs(r.tasks, i) == TaskRefs(s.tasks, i))
      && (forall f :: Users(r.tasks, f) == Users(s.tasks, f) - One(was == Some(f)) + One(v == Some(f)))
  {
    var k := s.tasks[t].value;
    var l := k.(filp := k.filp[fd := v], cloexec := k.cloexec - {fd});
    LemmaTaskChanged(s, t, l);
    forall f ensures Slots(l.filp, f) == Slots(k.filp, f) - One(k.filp[fd] == Some(f)) + One(v == Some(f)) {
      LemmaSlots(k.filp, fd, v, f);
    }
  }

  lemma LemmaWithFile(s: Tables, f: int, v: File)
    requires 0 <= f < |s.files|
    ensures forall i :: FileRefs(s.files[f := v], i) == FileRefs(s.files, i) - One(Refers(s.files[f], i)) + One(Refers(v, i))
  {
    forall i ensures FileRefs(s.files[f := v], i) == FileRefs(s.files, i) - One(Refers(s.files[f], i)) + One(Refers(v, i)) {
      LemmaFileRefs(s.files, f, v, i);
    }
  }

  // An open descriptor counts.
  lemma LemmaCounted(s: Tables, t: int, fd: int, f: int)
    requires FilesCounted(s) && 0 <= t < |s.tasks| && s.tasks[t].Some? && 0 <= fd < |s.tasks[t].value.filp|
    requires s.tasks[t].value.filp[fd] == Some(f) && 0 <= f < |s.files|
    ensures s.files[f].count >= 1
  {
    LemmaOpen(s.tasks[t].value.filp, fd, f);
    LemmaUsed(s.tasks, t, f);
  }

  lemma LemmaCloseOpen(s: Tables, t: int, fd: int, f: int)
    requires Inv(s) && Caller(s, t) && 0 <= fd < NR_OPEN && s.tasks[t].value.filp[fd] == Some(f)
    ensures Inv(Close(s, t, fd).0)
  {
    hide Users, FileRefs, TaskRefs, Slots;
    LemmaCounted(s, t, fd, f);
    LemmaWithFd(s, t, fd, None);
    LemmaWithFile(s, f, s.files[f].(count := s.files[f].count - 1));
    var r := Close(s, t, fd).0;
    assert Shape(r) && FilesCounted(r);
    assert InodesCounted(r);
  }

  // No other task changed, nor what others account for.
  predicate OthersAlone(s: Tables, t: int, r: Tables) {
    |r.tasks| == |s.tasks| && r.extra == s.extra && forall u :: 0 <= u < |s.tasks| && u != t ==> r.tasks[u] == s.tasks[u]
  }

  /** close keeps the counts; it closes the descriptor if it is open. */
  lemma LemmaClose(s: Tables, t: int, fd: int)
    requires Inv(s) && Caller(s, t)
    ensures var (r, ok) := Close(s, t, fd);
      var k := s.tasks[t].value;
      && Inv(r) && Caller(r, t) && |r.tasks| == |s.tasks| && |r.icount| == |s.icount|
      && ok == (0 <= fd < NR_OPEN && k.filp[fd].Some?) && OthersAlone(s, t, r)
      && r.tasks[t].value == if 0 <= fd < NR_OPEN then k.(filp := k.filp[fd := None], cloexec := k.cloexec - {fd}) else k
  {
    hide Users, FileRefs, TaskRefs, Slots;
    if 0 <= fd < NR_OPEN {
      var k := s.tasks[t].value;
      if k.filp[fd].None? {
        LemmaTaskChanged(s, t, k.(cloexec := k.cloexec - {fd}));
        assert k.filp[fd := None] == k.filp;
      } else {
        LemmaCloseOpen(s, t, fd, k.filp[fd].value);
      }
    }
  }

  /** Nobody ever gives up an inode that is not counted for it: iput cannot find a free inode. */
  lemma LemmaNeverFree(s: Tables, i: int)
    requires Inv(s) && ValidInode(s, i)
    ensures s.icount[i] >= 0
    ensures (exists t :: 0 <= t < |s.tasks| && Held(s.tasks[t], i) > 0) ==> s.icount[i] >= 1
    ensures (exists f :: 0 <= f < |s.files| && Refers(s.files[f], i)) ==> s.icount[i] >= 1
  {
    hide Users, FileRefs, TaskRefs, Slots;
    if t :| 0 <= t < |s.tasks| && Held(s.tasks[t], i) > 0 {
      LemmaTaskRefs(s.tasks, t, s.tasks[t], i);
    }
    if f :| 0 <= f < |s.files| && Refers(s.files[f], i) {
      LemmaFileRefs(s.files, f, s.files[f], i);
    }
  }

  lemma LemmaDupFd(s: Tables, t: int, fd: int, arg: int)
    requires Inv(s) && Caller(s, t)
    ensures var (r, d) := DupFd(s, t, fd, arg);
      && Inv(r) && Caller(r, t)
      && (d.Fd? ==> arg <= d.fd && s.tasks[t].value.filp[d.fd].None? && r.tasks[t].value.filp[d.fd] == s.tasks[t].value.filp[fd] && d.fd !in r.tasks[t].value.cloexec)
      && (!d.Fd? ==> r == s)
  {
    hide Users, FileRefs, TaskRefs, Slots;
    var d := DupFd(s, t, fd, arg).1;
    if d.Fd? {
      var f := s.tasks[t].value.filp[fd].value;
      LemmaCounted(s, t, fd, f);
      LemmaWithFd(s, t, d.fd, Some(f));
      LemmaWithFile(s, f, s.files[f].(count := s.files[f].count + 1));
    }
  }

  // fd is the lowest closed descriptor from arg on.
  predicate Lowest(filp: seq<Option<int>>, arg: int, fd: int) {
    0 <= arg <= fd < |filp| && filp[fd].None? && forall k :: arg <= k < fd ==> filp[k].Some?
  }

  // f is the first entry of the file table that is not in use.
  predicate FirstEntry(files: seq<File>, f: int) {
    0 <= f < |files| && files[f].count == 0 && forall k :: 0 <= k < f ==> files[k].count != 0
  }

  // The file f is counted once more.
  predicate OneMoreUse(files: seq<File>, f: Option<int>, files': seq<File>) {
    && |files'| == |files|
    && forall g :: 0 <= g < |files| ==> files'[g] == if f == Some(g) then files[g].(count := files[g].count + 1) else files[g]
  }

  // Of the tasks, only the descriptors of t changed.
  predicate OnlyFds(s: Tables, t: int, r: Tables)
    requires 0 <= t < |s.tasks| && s.tasks[t].Some?
  {
    && |r.tasks| == |s.tasks| && (forall u :: 0 <= u < |s.tasks| && u != t ==> r.tasks[u] == s.tasks[u])
    && r.tasks[t].Some? && (r.tasks[t].value.pwd, r.tasks[t].value.root, r.tasks[t].value.exe)
      == (s.tasks[t].value.pwd, s.tasks[t].value.root, s.tasks[t].value.exe)
  }

  /** dup and F_DUPFD give the lowest closed descriptor from the argument on, exactly if there is one, and
      tell apart why not; nothing but that slot, its mark and the count of the file changes. */
  lemma LemmaDupGives(s: Tables, t: int, fd: int, arg: int)
    requires Inv(s) && Caller(s, t)
    ensures var (r, d) := DupFd(s, t, fd, arg);
      var filp := s.tasks[t].value.filp;
      var open := 0 <= fd < NR_OPEN && filp[fd].Some?;
      && (d == EBADF <==> !open)
      && (d == EINVAL <==> open && !(0 <= arg < NR_OPEN))
      && (d == EMFILE <==> open && 0 <= arg < NR_OPEN && forall k :: arg <= k < NR_OPEN ==> filp[k].Some?)
      && (d.Fd? ==>
            && Lowest(filp, arg, d.fd) && OnlyFds(s, t, r) && r.tasks[t].value.filp == filp[d.fd := filp[fd]]
            && r.icount == s.icount && OneMoreUse(s.files, filp[fd], r.files))
  {
    hide Users, FileRefs, TaskRefs, Slots;
  }

  /** sys_open takes the lowest closed descriptor and the first free entry, exactly if there are both. */
  lemma LemmaOpenGives(s: Tables, t: int)
    requires Inv(s) && Caller(s, t)
    ensures var (r, o) := OpenStart(s, t);
      var filp := s.tasks[t].value.filp;
      && (o.None? <==> (forall fd :: 0 <= fd < NR_OPEN ==> filp[fd].Some?) || forall f :: 0 <= f < |s.files| ==> s.files[f].count != 0)
      && (o.None? ==> r.files == s.files && r.icount == s.icount && OnlyFds(s, t, r) && r.tasks[t].value.filp == filp)
      && (o.Some? ==>
            var (fd, f) := o.value;
            && Lowest(filp, 0, fd) && FirstEntry(s.files, f) && OnlyFds(s, t, r) && r.tasks[t].value.filp == filp[fd := Some(f)]
            && fd !in r.tasks[t].value.cloexec && r.files == s.files[f := r.files[f]] && r.files[f].count == 1 && r.icount == s.icount)
  {
    hide Users, FileRefs, TaskRefs, Slots;
  }

  lemma LemmaOpenStart(s: Tables, t: int)
    requires Inv(s) && Caller(s, t)
    ensures var (r, o) := OpenStart(s, t);
      && Inv(r) && (o.None? ==> Caller(r, t)) && (o.Some? ==> Opening(r, t, o.value.0, o.value.1))
  {
    hide Shape, FilesCounted, InodesCounted, Caller, Opening, OpenStart;
    LemmaOpenStartShape(s, t);
    LemmaOpenStartFiles(s, t);
    LemmaOpenStartInodes(s, t);
  }

  lemma LemmaOpenStartShape(s: Tables, t: int)
    requires Shape(s) && Caller(s, t)
    ensures var (r, o) := OpenStart(s, t);
      && Shape(r) && (o.None? ==> Caller(r, t)) && (o.Some? ==> Opening(r, t, o.value.0, o.value.1))
  {
  }

  lemma LemmaOpenStartFiles(s: Tables, t: int)
    requires Shape(s) && Caller(s, t) && FilesCounted(s)
    ensures FilesCounted(OpenStart(s, t).0)
  {
    hide Users, FileRefs, TaskRefs, Slots, InodesCounted;
    var k := s.tasks[t].value;
    var fd := FirstFree(k.filp, 0);
    var f := FirstUnused(s.files, 0);
    if fd < NR_OPEN {
      LemmaTaskChanged(s, t, k.(cloexec := k.cloexec - {fd}));
      if f < |s.files| {
        LemmaWithFd(s, t, fd, Some(f));
      }
    }
  }

  lemma LemmaOpenStartInodes(s: Tables, t: int)
    requires Shape(s) && Caller(s, t) && InodesCounted(s) && FilesCounted(s)
    ensures InodesCounted(OpenStart(s, t).0)
  {
    hide Users, FileRefs, TaskRefs, Slots;
    var k := s.tasks[t].value;
    var fd := FirstFree(k.filp, 0);
    var f := FirstUnused(s.files, 0);
    if fd < NR_OPEN {
      LemmaTaskChanged(s, t, k.(cloexec := k.cloexec - {fd}));
      if f < |s.files| {
        LemmaWithFd(s, t, fd, Some(f));
        LemmaWithFile(s, f, File(1, s.files[f].inode, false));
      }
    }
  }

  lemma LemmaOpenFail(s: Tables, t: int, fd: int, f: int)
    requires Inv(s) && Opening(s, t, fd, f)
    ensures Inv(OpenFail(s, t, fd, f))
  {
    hide Users, FileRefs, TaskRefs, Slots;
    LemmaCounted(s, t, fd, f);
    LemmaWithFd(s, t, fd, None);
    LemmaWithFile(s, f, s.files[f].(count := 0));
  }

  lemma LemmaOpenDone(s: Tables, t: int, fd: int, f: int, inode: int)
    requires Inv(s) && Opening(s, t, fd, f) && ValidInode(s, inode)
    ensures Inv(OpenDone(s, t, fd, f, inode))
  {
    hide Users, FileRefs, TaskRefs, Slots;
    LemmaCounted(s, t, fd, f);
    LemmaWithFile(s, f, File(1, inode, true));
  }

  // ---------------------------------------------------------------- dup2 and F_SETFD

  function Dup2(s: Tables, t: int, oldfd: int, newfd: int): (r: (Tables, Dup))
    requires Inv(s) && Caller(s, t)
  {
    LemmaClose(s, t, newfd);
    DupFd(Close(s, t, newfd).0, t, oldfd, newfd)
  }

  /** dup2 makes newfd another descriptor of what oldfd is, exactly if oldfd is open, newfd is in range
      and they differ; dup2 of a descriptor onto itself closes it. */
  lemma LemmaDup2(s: Tables, t: int, oldfd: int, newfd: int)
    requires Inv(s) && Caller(s, t)
    ensures var (r, d) := Dup2(s, t, oldfd, newfd);
      var open := 0 <= oldfd < NR_OPEN && s.tasks[t].value.filp[oldfd].Some?;
      && Inv(r) && Caller(r, t)
      && (d == Fd(newfd) <==> open && 0 <= newfd < NR_OPEN && oldfd != newfd)
      && (d == Fd(newfd) ==> r.tasks[t].value.filp == s.tasks[t].value.filp[newfd := s.tasks[t].value.filp[oldfd]])
      && (open && oldfd == newfd ==> d == EBADF && r.tasks[t].value.filp[oldfd].None?)
  {
    hide Inv, Users, FileRefs, TaskRefs, Slots;
    LemmaShape(s);
    LemmaClose(s, t, newfd);
    var s1 := Close(s, t, newfd).0;
    hide Close;
    LemmaShape(s1);
    LemmaDupFd(s1, t, oldfd, newfd);
  }

  lemma LemmaShape(s: Tables)
    requires Inv(s)
    ensures Shape(s)
  {
  }

  // fcntl with F_SETFD, for an open descriptor.
  function SetFd(s: Tables, t: int, fd: int, on: bool): Tables
    requires 0 <= t < |s.tasks| && s.tasks[t].Some?
  {
    var k := s.tasks[t].value;
    s.(tasks := s.tasks[t := Some(k.(cloexec := if on then k.cloexec + {fd} else k.cloexec - {fd}))])
  }

  lemma LemmaSetFd(s: Tables, t: int, fd: int, on: bool)
    requires Inv(s) && Caller(s, t) && 0 <= fd < NR_OPEN && s.tasks[t].value.filp[fd].Some?
    ensures Inv(SetFd(s, t, fd, on))
    ensures var r := SetFd(s, t, fd, on);
      && OnlyFds(s, t, r) && r.files == s.files && r.icount == s.icount && r.tasks[t].value.filp == s.tasks[t].value.filp
      && forall j :: j in r.tasks[t].value.cloexec <==> if j == fd then on else j in s.tasks[t].value.cloexec
  {
    hide Users, FileRefs, TaskRefs, Slots;
    LemmaTaskChanged(s, t, SetFd(s, t, fd, on).tasks[t].value);
  }

  // ---------------------------------------------------------------- pipe

  // sys_pipe; inode is what get_pipe_inode gave, a free inode, if anything.
  function Pipe(s: Tables, t: int, inode: Option<int>): (r: (Tables, Option<(int, int)>))
    requires Shape(s) && Caller(s, t) && InodeOk(s, inode)
  {
    var k := s.tasks[t].value;
    var f0 := FirstUnused(s.files, 0);
    var f1 := if f0 < |s.files| then FirstUnused(s.files, f0 + 1) else |s.files|;
    var fd0 := FirstFree(k.filp, 0);
    var fd1 := if fd0 < NR_OPEN then FirstFree(k.filp, fd0 + 1) else NR_OPEN;
    if f1 >= |s.files| || fd1 >= NR_OPEN || inode.None? then (s, None)
    else
      var i := inode.value;
      (s.(files := s.files[f0 := File(1, i, true)][f1 := File(1, i, true)],
          tasks := s.tasks[t := Some(k.(filp := k.filp[fd0 := Some(f0)][fd1 := Some(f1)]))],
          icount := s.icount[i := s.icount[i] + 2]),
       Some((fd0, fd1)))
  }

  // An unused entry becomes an open file of the inode, in a closed descriptor.
  function Attach(s: Tables, t: int, fd: int, f: int, inode: int): Tables
    requires 0 <= t < |s.tasks| && s.tasks[t].Some? && 0 <= fd < |s.tasks[t].value.filp| && 0 <= f < |s.files| && ValidInode(s, inode)
  {
    WithFile(WithFd(IGot(s, inode), t, fd, Some(f)), f, File(1, inode, true))
  }

  lemma LemmaAttach(s: Tables, t: int, fd: int, f: int, inode: int)
    requires Inv(s) && Caller(s, t) && 0 <= fd < NR_OPEN && s.tasks[t].value.filp[fd].None?
    requires 0 <= f < |s.files| && s.files[f].count == 0 && ValidInode(s, inode)
    ensures Inv(Attach(s, t, fd, f, inode)) && Caller(Attach(s, t, fd, f, inode), t)
  {
    hide Users, FileRefs, TaskRefs, Slots;
    LemmaWithFd(s, t, fd, Some(f));
    LemmaWithFile(s, f, File(1, inode, true));
  }

  lemma LemmaAttached(s: Tables, t: int, fd: int, f: int, inode: int)
    requires Shape(s) && Caller(s, t) && 0 <= fd < NR_OPEN && s.tasks[t].value.filp[fd].None? && 0 <= f < |s.files| && ValidInode(s, inode)
    ensures var r := Attach(s, t, fd, f, inode);
      && |r.tasks| == |s.tasks| && r.tasks[t].Some? && r.tasks[t].value.filp == s.tasks[t].value.filp[fd := Some(f)]
      && r.files == s.files[f := File(1, inode, true)] && |r.icount| == |s.icount| && ValidInode(r, inode)
  {
  }

  lemma LemmaAttachedTwice(s: Tables, t: int, fd0: int, f0: int, fd1: int, f1: int, inode: int)
    requires Shape(s) && Caller(s, t) && 0 <= fd0 < fd1 < NR_OPEN && 0 <= f0 < f1 < |s.files| && ValidInode(s, inode)
    requires s.tasks[t].value.filp[fd0].None? && s.tasks[t].value.filp[fd1].None?
    requires var s1 := Attach(s, t, fd0, f0, inode);
      t < |s1.tasks| && s1.tasks[t].Some? && fd1 < |s1.tasks[t].value.filp| && f1 < |s1.files| && ValidInode(s1, inode)
    ensures var k := s.tasks[t].value;
      Attach(Attach(s, t, fd0, f0, inode), t, fd1, f1, inode)
        == s.(files := s.files[f0 := File(1, inode, true)][f1 := File(1, inode, true)],
              tasks := s.tasks[t := Some(k.(filp := k.filp[fd0 := Some(f0)][fd1 := Some(f1)]))],
              icount := s.icount[inode := s.icount[inode] + 2])
  {
    var k := s.tasks[t].value;
    assert k.cloexec - {fd0} - {fd1} == k.cloexec;
  }

  /** pipe: both ends or nothing. */
  lemma LemmaPipe(s: Tables, t: int, inode: Option<int>)
    requires Inv(s) && Caller(s, t) && InodeOk(s, inode)
    ensures var (r, p) := Pipe(s, t, inode);
      && Inv(r) && Caller(r, t) && (p.None? ==> r == s)
      && (p.Some? ==> r.icount == s.icount[inode.value := s.icount[inode.value] + 2])
  {
    hide Users, FileRefs, TaskRefs, Slots, FilesCounted, InodesCounted, Attach;
    var (r, p) := Pipe(s, t, inode);
    if p.Some? {
      var (fd0, fd1) := p.value;
      var f0 := FirstUnused(s.files, 0);
      var f1 := FirstUnused(s.files, f0 + 1);
      LemmaAttach(s, t, fd0, f0, inode.value);
      LemmaAttached(s, t, fd0, f0, inode.value);
      LemmaAttach(Attach(s, t, fd0, f0, inode.value), t, fd1, f1, inode.value);
      LemmaAttachedTwice(s, t, fd0, f0, fd1, f1, inode.value);
    }
  }

  /** pipe takes the two lowest closed descriptors and the first two free entries, exactly if there are
      so many and it got an inode. */
  lemma LemmaPipeGives(s: Tables, t: int, inode: Option<int>)
    requires Inv(s) && Caller(s, t) && InodeOk(s, inode)
    ensures var (r, p) := Pipe(s, t, inode);
      var filp := s.tasks[t].value.filp;
      && (p.Some? <==> inode.Some? && TwoClosed(filp) && TwoUnused(s.files))
      && (p.Some? ==>
            var (fd0, fd1) := p.value;
            && Lowest(filp, 0, fd0) && Lowest(filp, fd0 + 1, fd1) && OnlyFds(s, t, r)
            && exists f0, f1 :: NextEntries(s.files, f0, f1) && r.tasks[t].value.filp == filp[fd0 := Some(f0)][fd1 := Some(f1)]
                 && r.files == s.files[f0 := File(1, inode.value, true)][f1 := File(1, inode.value, true)])
  {
    hide Users, FileRefs, TaskRefs, Slots, FilesCounted, InodesCounted;
    var f0 := FirstUnused(s.files, 0);
    if f0 < |s.files| {
      var f1 := FirstUnused(s.files, f0 + 1);
      assert f1 < |s.files| ==> NextEntries(s.files, f0, f1);
    }
  }

  predicate TwoClosed(filp: seq<Option<int>>) {
    exists a, b :: 0 <= a < b < |filp| && filp[a].None? && filp[b].None?
  }

  predicate TwoUnused(files: seq<File>) {
    exists a, b :: 0 <= a < b < |files| && files[a].count == 0 && files[b].count == 0
  }

  // The first two entries that are not in use.
  predicate NextEntries(files: seq<File>, f0: int, f1: int) {
    && FirstEntry(files, f0) && f0 < f1 < |files| && files[f1].count == 0
    && forall k :: f0 < k < f1 ==> files[k].count != 0
  }

  // ---------------------------------------------------------------- working directory, root, executable

  // A task's own references to inodes change from those of k to those of l.
  lemma LemmaHolds(s: Tables, t: int, l: Task)
    requires 0 <= t < |s.tasks| && s.tasks[t].Some? && l.filp == s.tasks[t].value.filp
    ensures forall i :: TaskRefs(s.tasks[t := Some(l)], i) == TaskRefs(s.tasks, i) - Held(s.tasks[t], i) + Held(Some(l), i)
    ensures forall f :: Users(s.tasks[t := Some(l)], f) == Users(s.tasks, f)
  {
    forall i ensures TaskRefs(s.tasks[t := Some(l)], i) == TaskRefs(s.tasks, i) - Held(s.tasks[t], i) + Held(Some(l), i) {
      LemmaTaskRefs(s.tasks, t, Some(l), i);
    }
    forall f ensures Users(s.tasks[t := Some(l)], f) == Users(s.tasks, f) {
      LemmaUsers(s.tasks, t, Some(l), f);
    }
  }

  datatype Place = Pwd | Root | Exe

  function Of(k: Task, p: Place): Option<int> {
    match p case Pwd => k.pwd case Root => k.root case Exe => k.exe
  }

  function To(k: Task, p: Place, i: Option<int>): Task {
    match p case Pwd => k.(pwd := i) case Root => k.(root := i) case Exe => k.(exe := i)
  }

  // chdir, chroot, and execve for the executable: the inode found, counted, takes the place of the old one.
  function Replace(s: Tables, t: int, p: Place, inode: int): Tables
    requires Shape(s) && 0 <= t < |s.tasks| && s.tasks[t].Some? && ValidInode(s, inode)
  {
    var k := s.tasks[t].value;
    var s1 := IPut(IGot(s, inode), Of(k, p));
    s1.(tasks := s1.tasks[t := Some(To(k, p, Some(inode)))])
  }

  // chdir changes the working directory, chroot the root and execve the executable, and nothing else of
  // any task; one inode gains a count and the old one loses it.
  lemma LemmaReplaced(s: Tables, t: int, p: Place, inode: int)
    requires Inv(s) && Caller(s, t) && ValidInode(s, inode)
    ensures var r := Replace(s, t, p, inode);
      var k := s.tasks[t].value;
      && r.files == s.files && OthersAlone(s, t, r) && r.tasks[t].Some?
      && r.tasks[t].value.filp == k.filp && r.tasks[t].value.cloexec == k.cloexec
      && r.tasks[t].value.pwd == (if p == Pwd then Some(inode) else k.pwd)
      && r.tasks[t].value.root == (if p == Root then Some(inode) else k.root)
      && r.tasks[t].value.exe == (if p == Exe then Some(inode) else k.exe)
    ensures var r := Replace(s, t, p, inode);
      var was := if p == Pwd then s.tasks[t].value.pwd else if p == Root then s.tasks[t].value.root else s.tasks[t].value.exe;
      |r.icount| == |s.icount| && forall i :: 0 <= i < |s.icount| ==>
        r.icount[i] == s.icount[i] + One(i == inode) - One(Some(i) == was)
  {
    hide Users, FileRefs, TaskRefs, Slots;
  }

  lemma LemmaReplace(s: Tables, t: int, p: Place, inode: int)
    requires Inv(s) && Caller(s, t) && ValidInode(s, inode)
    ensures Inv(Replace(s, t, p, inode)) && Caller(Replace(s, t, p, inode), t)
  {
    hide Shape, FilesCounted, InodesCounted, Caller, Replace;
    LemmaReplaceShape(s, t, p, inode);
    LemmaReplaceCounts(s, t, p, inode);
  }

  lemma LemmaReplaceShape(s: Tables, t: int, p: Place, inode: int)
    requires Shape(s) && Caller(s, t) && ValidInode(s, inode)
    ensures Shape(Replace(s, t, p, inode)) && Caller(Replace(s, t, p, inode), t)
  {
  }

  lemma LemmaReplaceCounts(s: Tables, t: int, p: Place, inode: int)
    requires Shape(s) && FilesCounted(s) && InodesCounted(s) && Caller(s, t) && ValidInode(s, inode)
    ensures FilesCounted(Replace(s, t, p, inode)) && InodesCounted(Replace(s, t, p, inode))
  {
    hide Users, FileRefs, TaskRefs, Slots;
    LemmaHolds(s, t, To(s.tasks[t].value, p, Some(inode)));
  }

  // iput of a place, and the null pointer stored there.
  function Drop(s: Tables, t: int, p: Place): Tables
    requires Shape(s) && 0 <= t < |s.tasks| && s.tasks[t].Some?
  {
    var k := s.tasks[t].value;
    var s1 := IPut(s, Of(k, p));
    s1.(tasks := s1.tasks[t := Some(To(k, p, None))])
  }

  lemma LemmaDrop(s: Tables, t: int, p: Place)
    requires Inv(s) && Caller(s, t)
    ensures var r := Drop(s, t, p);
      && Inv(r) && Caller(r, t) && |r.tasks| == |s.tasks| && |r.icount| == |s.icount|
      && r.tasks[t] == Some(To(s.tasks[t].value, p, None)) && OthersAlone(s, t, r)
  {
    hide Shape, FilesCounted, InodesCounted, Caller, Drop;
    LemmaDropShape(s, t, p);
    LemmaDropCounts(s, t, p);
  }

  lemma LemmaDropShape(s: Tables, t: int, p: Place)
    requires Shape(s) && Caller(s, t)
    ensures var r := Drop(s, t, p);
      && Shape(r) && Caller(r, t) && |r.tasks| == |s.tasks| && |r.icount| == |s.icount|
      && r.tasks[t] == Some(To(s.tasks[t].value, p, None)) && OthersAlone(s, t, r)
  {
  }

  lemma LemmaDropCounts(s: Tables, t: int, p: Place)
    requires Shape(s) && Caller(s, t) && FilesCounted(s) && InodesCounted(s)
    ensures FilesCounted(Drop(s, t, p)) && InodesCounted(Drop(s, t, p))
  {
    hide Users, FileRefs, TaskRefs, Slots;
    LemmaHolds(s, t, To(s.tasks[t].value, p, None));
  }

  // ---------------------------------------------------------------- exit and execve

  // The descriptors from fd on that are open, or marked close_on_exec if marked, get closed.
  ghost function CloseFrom(s: Tables, t: int, fd: int, marked: bool): (r: Tables)
    requires Inv(s) && Caller(s, t) && 0 <= fd <= NR_OPEN
    ensures Inv(r) && Caller(r, t) && |r.tasks| == |s.tasks| && |r.icount| == |s.icount| && OthersAlone(s, t, r)
    decreases NR_OPEN - fd
  {
    if fd == NR_OPEN then s
    else
      LemmaClose(s, t, fd);
      var k := s.tasks[t].value;
      CloseFrom(if (if marked then fd in k.cloexec else k.filp[fd].Some?) then Close(s, t, fd).0 else s, t, fd + 1, marked)
  }

  // The part of do_exit about files and inodes.
  ghost function Exit(s: Tables, t: int): (r: Tables)
    requires Inv(s) && Caller(s, t)
    ensures Inv(r) && Caller(r, t) && OthersAlone(s, t, r)
  {
    var s1 := CloseFrom(s, t, 0, false);
    LemmaDrop(s1, t, Pwd);
    var s2 := Drop(s1, t, Pwd);
    LemmaDrop(s2, t, Root);
    var s3 := Drop(s2, t, Root);
    LemmaDrop(s3, t, Exe);
    Drop(s3, t, Exe)
  }

  // The part of do_execve about them.
  ghost function Exec(s: Tables, t: int, inode: int): (r: Tables)
    requires Inv(s) && Caller(s, t) && ValidInode(s, inode)
    ensures Inv(r) && Caller(r, t) && OthersAlone(s, t, r)
  {
    LemmaReplace(s, t, Exe, inode);
    LemmaReplaced(s, t, Exe, inode);
    CloseFrom(Replace(s, t, Exe, inode), t, 0, true)
  }

  // What closing descriptors leaves of the task.
  lemma {:induction false} LemmaCloseFrom(s: Tables, t: int, fd: int, marked: bool)
    requires Inv(s) && Caller(s, t) && 0 <= fd <= NR_OPEN
    ensures var r := CloseFrom(s, t, fd, marked);
      var (k, l) := (s.tasks[t].value, r.tasks[t].value);
      && l == k.(filp := l.filp, cloexec := l.cloexec) && |k.filp| == |l.filp| == NR_OPEN
      && (forall i :: 0 <= i < NR_OPEN ==> l.filp[i] == if fd <= i && (!marked || i in k.cloexec) then None else k.filp[i])
      && (forall i :: i in l.cloexec <==> i in k.cloexec && i < fd)
    decreases NR_OPEN - fd
  {
    hide Inv, Caller, Close, CloseFrom;
    LemmaSlotCount(s, t);
    LemmaMarked(s, t);
    LemmaCloseOne(s, t, fd, marked);
    if fd < NR_OPEN {
      LemmaCloseFrom(AfterOne(s, t, fd, marked), t, fd + 1, marked);
    }
  }

  // One round of the loops in do_exit and do_execve.
  ghost function AfterOne(s: Tables, t: int, fd: int, marked: bool): Tables
    requires Inv(s) && Caller(s, t) && 0 <= fd < NR_OPEN
  {
    LemmaSlotCount(s, t);
    var k := s.tasks[t].value;
    if (if marked then fd in k.cloexec else k.filp[fd].Some?) then Close(s, t, fd).0 else s
  }

  lemma LemmaCloseOne(s: Tables, t: int, fd: int, marked: bool)
    requires Inv(s) && Caller(s, t) && 0 <= fd <= NR_OPEN
    ensures fd == NR_OPEN ==> CloseFrom(s, t, fd, marked) == s
    ensures fd < NR_OPEN ==>
      var r := AfterOne(s, t, fd, marked);
      var k := s.tasks[t].value;
      && Inv(r) && Caller(r, t) && CloseFrom(s, t, fd, marked) == CloseFrom(r, t, fd + 1, marked)
      && |k.filp| == NR_OPEN
      && r.tasks[t].value == k.(filp := r.tasks[t].value.filp, cloexec := k.cloexec - {fd})
      && r.tasks[t].value.filp == if !marked || fd in k.cloexec then k.filp[fd := None] else k.filp
  {
    hide Shape, FilesCounted, InodesCounted, Close;
    LemmaSlotCount(s, t);
    LemmaMarked(s, t);
    if fd < NR_OPEN {
      LemmaClose(s, t, fd);
      var k := s.tasks[t].value;
      assert k.filp[fd].None? ==> k.filp[fd := None] == k.filp;
      assert fd !in k.cloexec ==> k.cloexec - {fd} == k.cloexec;
    }
  }

  lemma LemmaSlotCount(s: Tables, t: int)
    requires Inv(s) && Caller(s, t)
    ensures 0 <= t < |s.tasks| && s.tasks[t].Some? && |s.tasks[t].value.filp| == NR_OPEN
  {
  }

  // Only open descriptors are marked.
  lemma LemmaMarked(s: Tables, t: int)
    requires Inv(s) && Caller(s, t)
    ensures 0 <= t < |s.tasks| && s.tasks[t].Some?
    ensures forall i :: i in s.tasks[t].value.cloexec ==> 0 <= i < NR_OPEN && i < |s.tasks[t].value.filp| && s.tasks[t].value.filp[i].Some?
  {
  }

  /** exit leaves the task with nothing; execve closes the marked descriptors, keeps the others, and
      leaves no marks. */
  lemma LemmaExitExec(s: Tables, t: int, inode: int)
    requires Inv(s) && Caller(s, t) && ValidInode(s, inode)
    ensures var k := Exit(s, t).tasks[t].value;
      k.pwd.None? && k.root.None? && k.exe.None? && k.cloexec == {} && forall fd :: 0 <= fd < |k.filp| ==> k.filp[fd].None?
    ensures var (k, l) := (s.tasks[t].value, Exec(s, t, inode).tasks[t].value);
      && l == k.(filp := l.filp, cloexec := {}, exe := Some(inode)) && |k.filp| == |l.filp|
      && forall fd :: 0 <= fd < |k.filp| ==> l.filp[fd] == if fd in k.cloexec then None else k.filp[fd]
  {
    hide Users, FileRefs, TaskRefs, Slots, FilesCounted, InodesCounted, CloseFrom;
    LemmaCloseFrom(s, t, 0, false);
    var s1 := CloseFrom(s, t, 0, false);
    LemmaMarks(s, t, s1.tasks[t].value);
    LemmaDrop(s1, t, Pwd);
    LemmaDrop(Drop(s1, t, Pwd), t, Root);
    LemmaDrop(Drop(Drop(s1, t, Pwd), t, Root), t, Exe);
    LemmaReplace(s, t, Exe, inode);
    LemmaCloseFrom(Replace(s, t, Exe, inode), t, 0, true);
    LemmaMarks(s, t, Exec(s, t, inode).tasks[t].value);
  }

  lemma LemmaMarks(s: Tables, t: int, l: Task)
    requires Inv(s) && Caller(s, t) && forall i :: i in l.cloexec <==> i in s.tasks[t].value.cloexec && i < 0
    ensures l.cloexec == {}
  {
    var k := s.tasks[t].value;
    assert GoodTask(s, k);
    forall i ensures i !in l.cloexec {
      assert i in k.cloexec ==> 0 <= i;
    }
  }

  // ---------------------------------------------------------------- fork

  // The loop of copy_process that counts the descriptors of the child.
  function CountAll(files: seq<File>, filp: seq<Option<int>>): (r: seq<File>)
    requires forall fd :: 0 <= fd < |filp| && filp[fd].Some? ==> 0 <= filp[fd].value < |files|
    ensures |r| == |files| && forall f :: 0 <= f < |files| ==> r[f] == files[f].(count := files[f].count + Slots(filp, f))
  {
    if filp == [] then files
    else
      var r := CountAll(files, filp[..|filp| - 1]);
      var last := filp[|filp| - 1];
      if last.None? then r else r[last.value := r[last.value].(count := r[last.value].count + 1)]
  }

  function IGotAny(s: Tables, i: Option<int>): Tables
    requires InodeOk(s, i)
  {
    if i.None? then s else IGot(s, i.value)
  }

  // The part of copy_process about files and inodes, for a child in slot nr.
  function Fork(s: Tables, t: int, nr: int): Tables
    requires Shape(s) && Caller(s, t) && 0 <= nr < |s.tasks|
  {
    var k := s.tasks[t].value;
    var s1 := s.(tasks := s.tasks[nr := Some(k)], files := CountAll(s.files, k.filp));
    IGotAny(IGotAny(IGotAny(s1, k.pwd), k.root), k.exe)
  }

  lemma {:induction false} LemmaFileRefsSame(files: seq<File>, files': seq<File>, i: int)
    requires |files| == |files'| && forall f :: 0 <= f < |files| ==> Refers(files[f], i) == Refers(files'[f], i)
    ensures FileRefs(files, i) == FileRefs(files', i)
  {
    if files != [] {
      LemmaFileRefsSame(files[..|files| - 1], files'[..|files'| - 1], i);
    }
  }

  lemma {:induction false} LemmaSomeSlot(filp: seq<Option<int>>, f: int) returns (fd: int)
    requires Slots(filp, f) > 0
    ensures 0 <= fd < |filp| && filp[fd] == Some(f)
  {
    var n := |filp| - 1;
    if filp[n] == Some(f) {
      fd := n;
    } else {
      fd := LemmaSomeSlot(filp[..n], f);
    }
  }

  // Counting a child's descriptors makes no closed entry an open one.
  lemma LemmaCountAll(s: Tables, t: int)
    requires Inv(s) && Caller(s, t)
    ensures var files := CountAll(s.files, s.tasks[t].value.filp);
      && (forall i :: FileRefs(files, i) == FileRefs(s.files, i))
      && forall f :: 0 <= f < |files| && !files[f].ready ==> files[f].count <= 1
  {
    var filp := s.tasks[t].value.filp;
    var files := CountAll(s.files, filp);
    forall f | 0 <= f < |files| && Slots(filp, f) > 0
      ensures s.files[f].count > 0 && s.files[f].ready
    {
      var fd := LemmaSomeSlot(filp, f);
      LemmaCounted(s, t, fd, f);
    }
    forall i ensures FileRefs(files, i) == FileRefs(s.files, i) {
      LemmaFileRefsSame(files, s.files, i);
    }
  }

  lemma LemmaForkUsers(s: Tables, t: int, nr: int)
    requires 0 <= t < |s.tasks| && s.tasks[t].Some? && 0 <= nr < |s.tasks| && s.tasks[nr].None?
    ensures forall f :: Users(s.tasks[nr := s.tasks[t]], f) == Users(s.tasks, f) + Slots(s.tasks[t].value.filp, f)
    ensures forall i :: TaskRefs(s.tasks[nr := s.tasks[t]], i) == TaskRefs(s.tasks, i) + Held(s.tasks[t], i)
  {
    forall f ensures Users(s.tasks[nr := s.tasks[t]], f) == Users(s.tasks, f) + Slots(s.tasks[t].value.filp, f) {
      LemmaUsers(s.tasks, nr, s.tasks[t], f);
    }
    forall i ensures TaskRefs(s.tasks[nr := s.tasks[t]], i) == TaskRefs(s.tasks, i) + Held(s.tasks[t], i) {
      LemmaTaskRefs(s.tasks, nr, s.tasks[t], i);
    }
  }

  lemma LemmaGot(s: Tables, i: Option<int>)
    requires InodeOk(s, i)
    ensures var r := IGotAny(s, i);
      && r == s.(icount := r.icount) && |r.icount| == |s.icount|
      && forall j :: 0 <= j < |s.icount| ==> r.icount[j] == s.icount[j] + One(i == Some(j))
  {
  }

  lemma LemmaForkCounts(s: Tables, t: int, nr: int)
    requires Shape(s) && Caller(s, t) && 0 <= nr < |s.tasks|
    ensures var r := Fork(s, t, nr);
      && r == s.(tasks := s.tasks[nr := s.tasks[t]], files := CountAll(s.files, s.tasks[t].value.filp), icount := r.icount)
      && |r.icount| == |s.icount| && forall j :: 0 <= j < |s.icount| ==> r.icount[j] == s.icount[j] + Held(s.tasks[t], j)
  {
    hide CountAll, IGotAny;
    var k := s.tasks[t].value;
    var s1 := s.(tasks := s.tasks[nr := Some(k)], files := CountAll(s.files, k.filp));
    LemmaGot(s1, k.pwd);
    LemmaGot(IGotAny(s1, k.pwd), k.root);
    LemmaGot(IGotAny(IGotAny(s1, k.pwd), k.root), k.exe);
  }

  /** fork: one more user of every open file of the parent for each descriptor, and one more holder of
      its directories and executable. */
  lemma LemmaFork(s: Tables, t: int, nr: int)
    requires Inv(s) && Caller(s, t) && 0 <= nr < |s.tasks| && s.tasks[nr].None?
    ensures Inv(Fork(s, t, nr)) && Fork(s, t, nr).tasks == s.tasks[nr := s.tasks[t]] && Fork(s, t, nr).extra == s.extra
  {
    hide Users, FileRefs, TaskRefs, Slots, CountAll, Held, Fork, Refers;
    LemmaForkUsers(s, t, nr);
    LemmaCountAll(s, t);
    LemmaForkCounts(s, t, nr);
    var r := Fork(s, t, nr);
    assert Shape(r) by {
      forall f | 0 <= f < |r.files| ensures r.files[f].ready == s.files[f].ready && r.files[f].inode == s.files[f].inode {
      }
    }
    assert FilesCounted(r);
    assert InodesCounted(r);
  }

  // release: the slot of a task that has exited.
  lemma LemmaRelease(s: Tables, t: int)
    requires Inv(s) && 0 <= t < |s.tasks| && s.tasks[t].Some?
    requires var k := s.tasks[t].value;
      k.pwd.None? && k.root.None? && k.exe.None? && forall fd :: 0 <= fd < |k.filp| ==> k.filp[fd].None?
    ensures Inv(s.(tasks := s.tasks[t := None]))
  {
    var k := s.tasks[t].value;
    forall f ensures Users(s.tasks[t := None], f) == Users(s.tasks, f) {
      LemmaUsers(s.tasks, t, None, f);
      if Slots(k.filp, f) > 0 {
        var fd := LemmaSomeSlot(k.filp, f);
      }
    }
    forall i ensures TaskRefs(s.tasks[t := None], i) == TaskRefs(s.tasks, i) {
      LemmaTaskRefs(s.tasks, t, None, i);
    }
  }

  // ---------------------------------------------------------------- runs

  /** One thing that happens, to one task; open is two of them, between which others run.  Elsewhere is
      anybody else taking or giving up a reference to an inode. */
  datatype Op =
    | CloseOp(fd: int)
    | DupOp(fd: int, arg: int)
    | Dup2Op(oldfd: int, newfd: int)
    | SetFdOp(fd: int, on: bool)
    | OpenOp
    | OpenFailOp(fd: int, f: int)
    | OpenDoneOp(fd: int, f: int, inode: int)
    | PipeOp(found: Option<int>)
    | ForkOp(nr: int)
    | PlaceOp(place: Place, inode: int)
    | ExecOp(inode: int)
    | ExitOp
    | ReleaseOp
    | Elsewhere(i: int, now: int)

  ghost predicate Next(s: Tables, t: int, op: Op, s': Tables)
    requires Inv(s)
  {
    && 0 <= t < |s.tasks| && s.tasks[t].Some?
    && match op
       case OpenFailOp(fd, f) => Opening(s, t, fd, f) && s' == OpenFail(s, t, fd, f)
       case OpenDoneOp(fd, f, inode) => Opening(s, t, fd, f) && ValidInode(s, inode) && s' == OpenDone(s, t, fd, f, inode)
       case Elsewhere(i, now) =>
         ValidInode(s, i) && now >= 0 && s' == s.(extra := s.extra[i := now], icount := s.icount[i := s.icount[i] - s.extra[i] + now])
       case _ => Caller(s, t) && Calls(s, t, op, s')
  }

  ghost predicate Calls(s: Tables, t: int, op: Op, s': Tables)
    requires Inv(s) && Caller(s, t)
  {
    match op
    case CloseOp(fd) => s' == Close(s, t, fd).0
    case DupOp(fd, arg) => s' == DupFd(s, t, fd, arg).0
    case Dup2Op(oldfd, newfd) => s' == Dup2(s, t, oldfd, newfd).0
    case SetFdOp(fd, on) => 0 <= fd < NR_OPEN && s.tasks[t].value.filp[fd].Some? && s' == SetFd(s, t, fd, on)
    case OpenOp => s' == OpenStart(s, t).0
    case PipeOp(found) => InodeOk(s, found) && s' == Pipe(s, t, found).0
    case ForkOp(nr) => 0 <= nr < |s.tasks| && s.tasks[nr].None? && s' == Fork(s, t, nr)
    case PlaceOp(place, inode) => ValidInode(s, inode) && s' == Replace(s, t, place, inode)
    case ExecOp(inode) => ValidInode(s, inode) && s' == Exec(s, t, inode)
    case ExitOp => s' == Exit(s, t)
    case ReleaseOp =>
      var k := s.tasks[t].value;
      && k.pwd.None? && k.root.None? && k.exe.None? && (forall fd :: 0 <= fd < |k.filp| ==> k.filp[fd].None?)
      && s' == s.(tasks := s.tasks[t := None])
    case _ => false
  }

  lemma LemmaNext(s: Tables, t: int, op: Op, s': Tables)
    requires Inv(s) && Next(s, t, op, s')
    ensures Inv(s')
  {
    match op
    case OpenFailOp(fd, f) => LemmaOpenFail(s, t, fd, f);
    case OpenDoneOp(fd, f, inode) => LemmaOpenDone(s, t, fd, f, inode);
    case Elsewhere(i, now) =>
    case _ => LemmaCalls(s, t, op, s');
  }

  lemma LemmaCalls(s: Tables, t: int, op: Op, s': Tables)
    requires Inv(s) && Caller(s, t) && Calls(s, t, op, s')
    ensures Inv(s')
  {
    hide Close, DupFd, OpenStart, Pipe, Fork, Replace, Exec, Exit;
    match op
    case CloseOp(fd) => LemmaClose(s, t, fd);
    case DupOp(fd, arg) => LemmaDupFd(s, t, fd, arg);
    case Dup2Op(oldfd, newfd) => LemmaDup2(s, t, oldfd, newfd);
    case SetFdOp(fd, on) => LemmaSetFd(s, t, fd, on);
    case OpenOp => LemmaOpenStart(s, t);
    case PipeOp(found) => LemmaPipe(s, t, found);
    case ForkOp(nr) => LemmaFork(s, t, nr);
    case PlaceOp(place, inode) => LemmaReplace(s, t, place, inode);
    case ExecOp(inode) =>
    case ExitOp =>
    case ReleaseOp => LemmaRelease(s, t);
    case _ => assert false;
  }

  ghost predicate Run(trace: seq<Tables>, who: seq<int>, ops: seq<Op>) {
    && |trace| == |ops| + 1 && |who| == |ops|
    && forall n :: 0 <= n < |ops| ==> Inv(trace[n]) ==> Next(trace[n], who[n], ops[n], trace[n + 1])
  }

  /** Over every run of calls by any tasks, the counts of files and inodes are right, and only open
      descriptors are marked close_on_exec. */
  lemma {:induction false} LemmaRun(trace: seq<Tables>, who: seq<int>, ops: seq<Op>)
    requires Run(trace, who, ops) && Inv(trace[0])
    ensures Inv(trace[|ops|])
  {
    hide Inv;
    if ops != [] {
      var n := |ops| - 1;
      LemmaRun(trace[..n + 1], who[..n], ops[..n]);
      assert Next(trace[n], who[n], ops[n], trace[n + 1]);
      LemmaNext(trace[n], who[n], ops[n], trace[n + 1]);
    }
  }
}
