/** The system calls of References on the kernel's tables, updated in place. */
module OpenFiles {
  import opened References
  import opened Wrappers

  class Kernel {
    const files: array<File>
    const task: array<Option<Task>>
    const icount: array<int>
    ghost const extra: seq<int>

    ghost function View(): Tables
      reads files, task, icount
    {
      Tables(files[..], task[..], icount[..], extra)
    }

    ghost predicate Valid()
      reads files, task, icount
    {
      Inv(View())
    }

    constructor (files: array<File>, task: array<Option<Task>>, icount: array<int>, ghost extra: seq<int>)
      requires Inv(Tables(files[..], task[..], icount[..], extra))
      ensures Valid() && this.files == files && this.task == task && this.icount == icount && this.extra == extra
    {
      this.files, this.task, this.icount, this.extra := files, task, icount, extra;
    }

    method IPut(i: Option<int>)
      requires i.Some? ==> 0 <= i.value < icount.Length
      modifies icount
      ensures View() == References.IPut(old(View()), i)
    {
      if i.Some? {
        icount[i.value] := icount[i.value] - 1;
      }
      assert icount[..] == References.IPut(old(View()), i).icount;
    }

    method Count(i: Option<int>)
      requires i.Some? ==> 0 <= i.value < icount.Length
      modifies icount
      ensures View() == IGotAny(old(View()), i)
    {
      if i.Some? {
        icount[i.value] := icount[i.value] + 1;
      }
      assert icount[..] == IGotAny(old(View()), i).icount;
    }

    // sys_close, by task t; false is -EINVAL.
    method SysClose(t: int, fd: int) returns (ok: bool)
      requires Valid() && Caller(View(), t)
      modifies files, task, icount
      ensures Valid() && Caller(View(), t) && (View(), ok) == Close(old(View()), t, fd)
    {
      hide Users, FileRefs, TaskRefs;
      ghost var s := View();
      LemmaClose(s, t, fd);
      if fd < 0 || fd >= NR_OPEN {
        return false;
      }
      var k := task[t].value;
      task[t] := Some(k.(cloexec := k.cloexec - {fd}));
      assert task[..] == s.tasks[t := Some(k.(cloexec := k.cloexec - {fd}))];
      if k.filp[fd].None? {
        return false;
      }
      var f := k.filp[fd].value;
      task[t] := Some(task[t].value.(filp := k.filp[fd := None]));
      files[f] := files[f].(count := files[f].count - 1);
      assert View() == WithFile(WithFd(s, t, fd, None), f, s.files[f].(count := s.files[f].count - 1));
      if files[f].count != 0 {
        return true;
      }
      IPut(Some(files[f].inode));
      return true;
    }

    method FindDescriptor(t: int, arg: int) returns (fd: int)
      requires 0 <= t < task.Length && task[t].Some? && 0 <= arg <= |task[t].value.filp| == NR_OPEN
      ensures fd == FirstFree(task[t].value.filp, arg)
    {
      fd := arg;
      while fd < NR_OPEN && task[t].value.filp[fd].Some?
        invariant arg <= fd <= NR_OPEN && FirstFree(task[t].value.filp, fd) == FirstFree(task[t].value.filp, arg)
      {
        fd := fd + 1;
      }
    }

    method FindFile(from: int) returns (f: int)
      requires 0 <= from <= files.Length
      ensures f == FirstUnused(files[..], from)
    {
      f := from;
      while f < files.Length && files[f].count != 0
        invariant from <= f <= files.Length && FirstUnused(files[..], f) == FirstUnused(files[..], from)
      {
        f := f + 1;
      }
    }

    method DupFd(t: int, fd: int, arg: int) returns (d: Dup)
      requires Valid() && Caller(View(), t)
      modifies files, task
      ensures Valid() && Caller(View(), t) && (View(), d) == References.DupFd(old(View()), t, fd, arg)
    {
      hide Users, FileRefs, TaskRefs, FirstFree;
      ghost var s := View();
      LemmaDupFd(s, t, fd, arg);
      if fd < 0 || fd >= NR_OPEN || task[t].value.filp[fd].None? {
        return EBADF;
      }
      if arg < 0 || arg >= NR_OPEN {
        return EINVAL;
      }
      var to := FindDescriptor(t, arg);
      if to >= NR_OPEN {
        return EMFILE;
      }
      var k := task[t].value;
      var f := k.filp[fd].value;
      task[t] := Some(k.(cloexec := k.cloexec - {to}));
      task[t] := Some(task[t].value.(filp := k.filp[to := Some(f)]));
      files[f] := files[f].(count := files[f].count + 1);
      assert View() == WithFile(WithFd(s, t, to, Some(f)), f, s.files[f].(count := s.files[f].count + 1));
      return Fd(to);
    }

    method SysDup2(t: int, oldfd: int, newfd: int) returns (d: Dup)
      requires Valid() && Caller(View(), t)
      modifies files, task, icount
      ensures Valid() && Caller(View(), t) && (View(), d) == Dup2(old(View()), t, oldfd, newfd)
    {
      hide Inv, Close, References.DupFd;
      var ok := SysClose(t, newfd);
      d := DupFd(t, oldfd, newfd);
    }

    // sys_open, up to the call of open_namei.
    method SysOpenStart(t: int) returns (o: Option<(int, int)>)
      requires Valid() && Caller(View(), t)
      modifies files, task
      ensures Valid() && (View(), o) == OpenStart(old(View()), t)
    {
      hide Users, FileRefs, TaskRefs, FirstFree, FirstUnused;
      ghost var s := View();
      LemmaOpenStart(s, t);
      var fd := FindDescriptor(t, 0);
      if fd >= NR_OPEN {
        return None;
      }
      var k := task[t].value;
      task[t] := Some(k.(cloexec := k.cloexec - {fd}));
      assert task[..] == s.tasks[t := Some(k.(cloexec := k.cloexec - {fd}))];
      var f := FindFile(0);
      if f >= files.Length {
        return None;
      }
      task[t] := Some(task[t].value.(filp := k.filp[fd := Some(f)]));
      files[f] := files[f].(count := files[f].count + 1, ready := false);
      assert View() == WithFile(WithFd(s, t, fd, Some(f)), f, File(1, s.files[f].inode, false));
      return Some((fd, f));
    }

    // The rest of it: open_namei found an inode, and counted it, or failed.
    method SysOpenFinish(t: int, fd: int, f: int, found: Option<int>)
      requires Valid() && Opening(View(), t, fd, f) && (found.Some? ==> 0 <= found.value < icount.Length)
      modifies files, task, icount
      ensures Valid()
      ensures View() == if found.None? then OpenFail(old(View()), t, fd, f) else OpenDone(old(View()), t, fd, f, found.value)
    {
      hide Users, FileRefs, TaskRefs;
      ghost var s := View();
      if found.None? {
        LemmaOpenFail(s, t, fd, f);
        LemmaUnmarked(s, t, fd, f);
        var k := task[t].value;
        task[t] := Some(k.(filp := k.filp[fd := None], cloexec := k.cloexec - {fd}));
        files[f] := files[f].(count := 0);
        assert View() == OpenFail(s, t, fd, f);
        return;
      }
      LemmaOpenDone(s, t, fd, f, found.value);
      Count(found);
      files[f] := File(1, found.value, true);
      assert files[..] == s.files[f := File(1, found.value, true)];
    }

    // sys_pipe, given what get_pipe_inode gives: a free inode, which it counts twice.
    method SysPipe(t: int, found: Option<int>) returns (p: Option<(int, int)>)
      requires Valid() && Caller(View(), t) && (found.Some? ==> 0 <= found.value < icount.Length)
      modifies files, task, icount
      ensures Valid() && (View(), p) == Pipe(old(View()), t, found)
    {
      hide Users, FileRefs, TaskRefs, FirstFree, FirstUnused;
      ghost var s := View();
      LemmaPipe(s, t, found);
      var f0 := FindFile(0);
      if f0 >= files.Length {
        return None;
      }
      var f1 := FindFile(f0 + 1);
      if f1 >= files.Length {
        return None;
      }
      var fd0 := FindDescriptor(t, 0);
      if fd0 >= NR_OPEN {
        return None;
      }
      var fd1 := FindDescriptor(t, fd0 + 1);
      if fd1 >= NR_OPEN || found.None? {
        return None;
      }
      var k := task[t].value;
      var i := found.value;
      files[f0] := File(1, i, true);
      files[f1] := File(1, i, true);
      task[t] := Some(k.(filp := k.filp[fd0 := Some(f0)][fd1 := Some(f1)]));
      icount[i] := icount[i] + 2;
      assert View() == Pipe(s, t, found).0;
      return Some((fd0, fd1));
    }

    // The part of copy_process that counts what the child in slot nr refers to.
    method CopyReferences(t: int, nr: int)
      requires Valid() && Caller(View(), t) && 0 <= nr < task.Length && task[nr].None?
      modifies files, task, icount
      ensures Valid() && View() == Fork(old(View()), t, nr)
    {
      hide Users, FileRefs, TaskRefs, Slots, Inv, Shape, Caller, Fork, CountAll;
      ghost var s := View();
      LemmaFork(s, t, nr);
      LemmaForkSteps(s, t, nr);
      var k := task[t].value;
      CountFiles(k.filp);
      task[nr] := Some(k);
      assert View() == s.(tasks := s.tasks[nr := Some(k)], files := CountAll(s.files, k.filp));
      Count(k.pwd);
      Count(k.root);
      Count(k.exe);
    }

    // The loop of copy_process over the descriptors.
    method CountFiles(filp: seq<Option<int>>)
      requires forall i :: 0 <= i < |filp| && filp[i].Some? ==> 0 <= filp[i].value < files.Length
      modifies files
      ensures files[..] == CountAll(old(files[..]), filp)
    {
      for i := 0 to |filp|
        invariant files[..] == CountAll(old(files[..]), filp[..i])
      {
        assert filp[..i + 1][..i] == filp[..i];
        if filp[i].Some? {
          var f := filp[i].value;
          files[f] := files[f].(count := files[f].count + 1);
        }
      }
      assert filp[..|filp|] == filp;
    }

    // sys_chdir and sys_chroot of an inode that namei found and counted; false is -ENOTDIR.
    method ChangePlace(t: int, place: Place, inode: int, dir: bool) returns (ok: bool)
      requires Valid() && Caller(View(), t) && 0 <= inode < icount.Length
      modifies task, icount
      ensures Valid() && ok == dir && View() == if dir then Replace(old(View()), t, place, inode) else old(View())
    {
      hide Users, FileRefs, TaskRefs, Slots;
      ghost var s := View();
      LemmaReplace(s, t, place, inode);
      Count(Some(inode));
      if !dir {
        IPut(Some(inode));
        assert icount[..] == s.icount;
        return false;
      }
      var k := task[t].value;
      IPut(Of(k, place));
      task[t] := Some(To(k, place, Some(inode)));
      assert task[..] == s.tasks[t := Some(To(k, place, Some(inode)))];
      return true;
    }

    method DropPlace(t: int, place: Place)
      requires Valid() && Caller(View(), t)
      modifies task, icount
      ensures Valid() && Caller(View(), t) && View() == Drop(old(View()), t, place)
    {
      hide Users, FileRefs, TaskRefs, Slots;
      ghost var s := View();
      LemmaDrop(s, t, place);
      var k := task[t].value;
      IPut(Of(k, place));
      task[t] := Some(To(k, place, None));
      assert task[..] == s.tasks[t := Some(To(k, place, None))];
    }

    // Closing the open descriptors, or those marked close_on_exec.
    method CloseAll(t: int, marked: bool)
      requires Valid() && Caller(View(), t)
      modifies files, task, icount
      ensures Valid() && Caller(View(), t) && View() == CloseFrom(old(View()), t, 0, marked)
    {
      hide Inv, Close, Caller, CloseFrom;
      ghost var s := View();
      LemmaCallers(s, t);
      for i := 0 to NR_OPEN
        invariant Valid() && Caller(View(), t) && CloseFrom(View(), t, i, marked) == CloseFrom(s, t, 0, marked)
      {
        LemmaCallers(View(), t);
        LemmaCloseStep(View(), t, i, marked);
        if if marked then i in task[t].value.cloexec else task[t].value.filp[i].Some? {
          var ok := SysClose(t, i);
        }
      }
      LemmaCloseEnd(View(), t, marked);
    }

    // The part of do_exit about files and inodes.
    method ExitReferences(t: int)
      requires Valid() && Caller(View(), t)
      modifies files, task, icount
      ensures Valid() && View() == Exit(old(View()), t)
    {
      hide Inv, Drop, CloseFrom, Caller;
      CloseAll(t, false);
      DropPlace(t, Pwd);
      DropPlace(t, Root);
      DropPlace(t, Exe);
    }

    // The part of do_execve about them; inode is the new executable, counted by namei.
    method ExecReferences(t: int, inode: int)
      requires Valid() && Caller(View(), t) && 0 <= inode < icount.Length
      modifies files, task, icount
      ensures Valid() && View() == Exec(old(View()), t, inode)
    {
      hide Inv, Replace, CloseFrom, Caller;
      LemmaReplace(View(), t, Exe, inode);
      var ok := ChangePlace(t, Exe, inode, true);
      CloseAll(t, true);
    }
  }

  lemma LemmaUnmarked(s: Tables, t: int, fd: int, f: int)
    requires Inv(s) && Opening(s, t, fd, f)
    ensures |s.tasks[t].value.filp| == NR_OPEN
  {
  }

  // What copy_process needs of the parent, and what it does, in steps.
  lemma LemmaForkSteps(s: Tables, t: int, nr: int)
    requires Inv(s) && Caller(s, t) && 0 <= nr < |s.tasks| && s.tasks[nr].None?
    ensures 0 <= t < |s.tasks| && s.tasks[t].Some?
    ensures var k := s.tasks[t].value;
      && (forall i :: 0 <= i < |k.filp| && k.filp[i].Some? ==> 0 <= k.filp[i].value < |s.files|)
      && (forall i :: i == k.pwd || i == k.root || i == k.exe ==> i.Some? ==> 0 <= i.value < |s.icount|)
      && |CountAll(s.files, k.filp)| == |s.files|
      && Fork(s, t, nr) == IGotAny(IGotAny(IGotAny(s.(tasks := s.tasks[nr := Some(k)], files := CountAll(s.files, k.filp)), k.pwd), k.root), k.exe)
  {
    hide Users, FileRefs, TaskRefs, Slots;
  }

  lemma LemmaCallers(s: Tables, t: int)
    requires Inv(s) && Caller(s, t)
    ensures 0 <= t < |s.tasks| && s.tasks[t].Some? && |s.tasks[t].value.filp| == NR_OPEN
  {
  }

  lemma LemmaCloseStep(s: Tables, t: int, fd: int, marked: bool)
    requires Inv(s) && Caller(s, t) && 0 <= fd < NR_OPEN
    ensures |s.tasks[t].value.filp| == NR_OPEN
    ensures var k := s.tasks[t].value;
      var r := if (if marked then fd in k.cloexec else k.filp[fd].Some?) then Close(s, t, fd).0 else s;
      Inv(r) && Caller(r, t) && CloseFrom(s, t, fd, marked) == CloseFrom(r, t, fd + 1, marked)
  {
    LemmaClose(s, t, fd);
  }

  lemma LemmaCloseEnd(s: Tables, t: int, marked: bool)
    requires Inv(s) && Caller(s, t)
    ensures CloseFrom(s, t, NR_OPEN, marked) == s
  {
  }
}
