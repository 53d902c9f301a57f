/** Physical pages, page tables and the page directory: mm/memory.c, on values.
    A frame number is a physical address divided by 4096; a linear page is a pair
    (directory index, table index).  */
module Memory {
  import opened Basics
  import opened Bytes
  import opened Wrappers

  const LOW: int := 256            // LOW_MEM >> 12
  const PT: int := 1024            // entries of one page table
  const SLOT_DIRS: int := 16       // 0x4000000 >> 22: directory entries of one task slot
  const SLOTS: int := 64           // NR_TASKS
  const USED: int := 100

  type Page = seq<byte>

  function ZeroPage(): Page { seq(PAGE_SIZE, _ => 0 as byte) }

  // A directory or page-table word: the P bit, the page it names and the R/W bit.
  datatype Pte = Absent | Present(frame: int, rw: bool)

  /** mem_map, the page directory, and every physical page in its two readings:
      as a table of entries and as bytes. By PageLedger.TablesPrivate no page has both uses. */
  datatype Mem = Mem(high: int, count: seq<int>, dir: seq<Pte>, tab: seq<seq<Pte>>, data: seq<Page>)

  ghost predicate Sound(s: Mem) {
    && LOW < s.high <= LOW + |s.count|
    && |s.tab| == |s.data| == LOW + |s.count|
    && |s.dir| == SLOTS * SLOT_DIRS
    && (forall d :: 0 <= d < |s.dir| && s.dir[d].Present? ==> 0 <= s.dir[d].frame < |s.tab|)
    && BytesInRange(s)
    && TablesInRange(s)
  }

  // Bytes of mem_map are bytes, and those past the end of memory are marked USED.
  ghost predicate BytesInRange(s: Mem) {
    && (forall k :: 0 <= k < |s.count| ==> 0 <= s.count[k] < 256)
    && (forall k :: 0 <= s.high - LOW <= k < |s.count| ==> s.count[k] != 0)
  }

  ghost predicate TablesInRange(s: Mem) {
    && (forall f :: 0 <= f < |s.tab| ==> |s.tab[f]| == PT)
    && (forall f :: 0 <= f < |s.data| ==> |s.data[f]| == PAGE_SIZE)
    && (forall f, i :: 0 <= f < |s.tab| && 0 <= i < |s.tab[f]| && s.tab[f][i].Present? ==> 0 <= s.tab[f][i].frame < s.high)
  }

  // ---------------------------------------------------------------- the operations

  // mem_init, in pages: everything is USED but main memory.
  function MemInit(s: Mem, start: int, end: int): Mem {
    s.(high := end, count := seq(|s.count|, k => if start - LOW <= k < end - LOW then 0 else USED))
  }

  // get_free_page scans mem_map from its end; the highest free index below n, or -1.
  function LastZero(count: seq<int>, n: int): (k: int)
    requires 0 <= n <= |count|
    ensures -1 <= k < n
    ensures k >= 0 ==> count[k] == 0
    ensures forall j :: k < j < n ==> count[j] != 0
  {
    if n == 0 then -1
    else if count[n - 1] == 0 then n - 1
    else LastZero(count, n - 1)
  }

  // get_free_page: the page taken (0 if there is none), cleared in both readings.
  function GetFree(s: Mem): (r: (Mem, int))
    requires Sound(s)
    ensures Sound(r.0) && (r.1 == 0 || LOW <= r.1) && r.1 < s.high && |r.0.tab| == |s.tab| && r.0.high == s.high && r.0.dir == s.dir
  {
    var k := LastZero(s.count, |s.count|);
    if k < 0 then (s, 0)
    else (s.(count := s.count[k := 1],
             tab := s.tab[LOW + k := seq(PT, _ => Absent)],
             data := s.data[LOW + k := ZeroPage()]), LOW + k)
  }

  // free_page; None is a panic.
  function FreePage(s: Mem, f: int): (r: Option<Mem>)
    requires Sound(s)
    ensures r.Some? ==> Sound(r.value) && |r.value.count| == |s.count| && r.value == s.(count := r.value.count)
  {
    if f < LOW then Some(s)
    else if f >= s.high then None
    else if s.count[f - LOW] == 0 then None
    else Some(s.(count := s.count[f - LOW := s.count[f - LOW] - 1]))
  }

  function SetEntry(s: Mem, t: int, i: int, e: Pte): (r: Mem)
    requires Sound(s) && 0 <= t < |s.tab| && 0 <= i < PT
    requires e.Present? ==> 0 <= e.frame < s.high
    ensures Sound(r) && r == s.(tab := r.tab)
  {
    s.(tab := s.tab[t := s.tab[t][i := e]])
  }

  function SetDir(s: Mem, d: int, e: Pte): (r: Mem)
    requires Sound(s) && 0 <= d < |s.dir|
    requires e.Present? ==> 0 <= e.frame < |s.tab|
    ensures Sound(r) && r == s.(dir := r.dir)
  {
    s.(dir := s.dir[d := e])
  }

  // One round of the inner loop of free_page_tables.
  function FreeEntry(s: Mem, t: int, i: int): (r: Option<Mem>)
    requires Sound(s) && 0 <= t < |s.tab| && 0 <= i < PT
    ensures r.Some? ==> Sound(r.value) && |r.value.count| == |s.count| && r.value == s.(count := r.value.count, tab := r.value.tab)
  {
    if s.tab[t][i].Present? then
      var s1 :- FreePage(s, s.tab[t][i].frame);
      Some(SetEntry(s1, t, i, Absent))
    else Some(SetEntry(s, t, i, Absent))
  }

  function FreeEntries(s: Mem, t: int, i: int): (r: Option<Mem>)
    requires Sound(s) && 0 <= t < |s.tab| && 0 <= i <= PT
    ensures r.Some? ==> Sound(r.value) && |r.value.count| == |s.count| && r.value == s.(count := r.value.count, tab := r.value.tab)
    decreases PT - i
  {
    if i == PT then Some(s)
    else
      var s1 :- FreeEntry(s, t, i);
      FreeEntries(s1, t, i + 1)
  }

  // One round of the outer loop of free_page_tables.
  function FreeTable(s: Mem, d: int): (r: Option<Mem>)
    requires Sound(s) && 0 <= d < |s.dir|
    ensures r.Some? ==> Sound(r.value) && |r.value.count| == |s.count| && r.value == s.(count := r.value.count, tab := r.value.tab, dir := s.dir[d := Absent])
  {
    if s.dir[d].Absent? then Some(s)
    else
      var s1 :- FreeEntries(s, s.dir[d].frame, 0);
      var s2 :- FreePage(s1, s.dir[d].frame);
      Some(s2.(dir := s.dir[d := Absent]))
  }

  // free_page_tables: n directory entries from d on.
  function FreeTables(s: Mem, d: int, n: int): (r: Option<Mem>)
    requires Sound(s) && 0 <= n && 0 <= d && d + n <= |s.dir|
    ensures r.Some? ==> Sound(r.value) && |r.value.count| == |s.count| && |r.value.dir| == |s.dir|
    ensures r.Some? ==> r.value.data == s.data && r.value.high == s.high
    decreases n
  {
    if n == 0 then Some(s)
    else
      var s1 :- FreeTable(s, d);
      FreeTables(s1, d + 1, n - 1)
  }

  // One round of the inner loop of copy_page_tables: both entries become read-only.
  function CopyEntry(s: Mem, ft: int, tt: int, i: int): (r: Mem)
    requires Sound(s) && 0 <= ft < |s.tab| && 0 <= tt < |s.tab| && 0 <= i < PT
    ensures Sound(r) && |r.tab| == |s.tab| && r.dir == s.dir && r.data == s.data
  {
    match s.tab[ft][i]
    case Absent => s
    case Present(f, _) =>
      var ro := Present(f, false);
      var s1 := SetEntry(s, tt, i, ro);
      if f >= LOW then
        var s2 := SetEntry(s1, ft, i, ro);
        s2.(count := s2.count[f - LOW := (s2.count[f - LOW] + 1) % 256])
      else s1
  }

  function CopyEntries(s: Mem, ft: int, tt: int, i: int, n: int): (r: Mem)
    requires Sound(s) && 0 <= ft < |s.tab| && 0 <= tt < |s.tab| && 0 <= i <= n <= PT
    ensures Sound(r) && |r.tab| == |s.tab| && r.dir == s.dir && r.data == s.data
    decreases n - i
  {
    if i == n then s else CopyEntries(CopyEntry(s, ft, tt, i), ft, tt, i + 1, n)
  }

  datatype Outcome = Done(mem: Mem) | NoMemory(mem: Mem) | Panic

  // One round of the outer loop of copy_page_tables.
  function CopyTable(s: Mem, fd: int, td: int, cnt: int): (r: Outcome)
    requires Sound(s) && 0 <= fd < |s.dir| && 0 <= td < |s.dir| && 0 <= cnt <= PT
    ensures !r.Panic? ==> Sound(r.mem)
  {
    if s.dir[td].Present? then Panic
    else if s.dir[fd].Absent? then Done(s)
    else
      var ft := s.dir[fd].frame;
      var (s1, tt) := GetFree(s);
      if tt == 0 then NoMemory(s1)
      else Done(CopyEntries(SetDir(s1, td, Present(tt, true)), ft, tt, 0, cnt))
  }

  // copy_page_tables: cnt entries of each of n tables.
  function CopyTables(s: Mem, fd: int, td: int, n: int, cnt: int): (r: Outcome)
    requires Sound(s) && 0 <= n && 0 <= fd && 0 <= td && fd + n <= |s.dir| && td + n <= |s.dir| && 0 <= cnt <= PT
    ensures !r.Panic? ==> Sound(r.mem)
    decreases n
  {
    if n == 0 then Done(s)
    else match CopyTable(s, fd, td, cnt)
      case Done(s1) => CopyTables(s1, fd + 1, td + 1, n - 1, cnt)
      case r => r
  }

  // put_page: false when there is no page for the table.
  function PutPage(s: Mem, f: int, d: int, i: int): (r: (Mem, bool))
    requires Sound(s) && 0 <= f < s.high && 0 <= d < |s.dir| && 0 <= i < PT
    ensures Sound(r.0) && r.0.high == s.high
    ensures r.1 ==> Entry(r.0, d, i) == Present(f, true)
  {
    if s.dir[d].Present? then (SetEntry(s, s.dir[d].frame, i, Present(f, true)), true)
    else
      var (s1, t) := GetFree(s);
      if t == 0 then (s1, false)
      else
        var s2 := SetDir(s1, d, Present(t, true));
        (SetEntry(s2, t, i, Present(f, true)), true)
  }

  // What the processor finds when it translates the linear page (d, i).
  function Entry(s: Mem, d: int, i: int): Pte
    requires Sound(s) && 0 <= d < |s.dir| && 0 <= i < PT
  {
    if s.dir[d].Present? then s.tab[s.dir[d].frame][i] else Absent
  }

  // get_empty_page up to the call of oom.
  function GetEmpty(s: Mem, d: int, i: int): (r: Outcome)
    requires Sound(s) && 0 <= d < |s.dir| && 0 <= i < PT
    ensures !r.Panic? ==> Sound(r.mem) && r.mem.high == s.high
    ensures r.Done? ==> Entry(r.mem, d, i).Present?
  {
    var (s1, f) := GetFree(s);
    if f == 0 then NoMemory(s1)
    else
      var (s2, ok) := PutPage(s1, f, d, i);
      if ok then Done(s2)
      else match FreePage(s2, f) case None => Panic case Some(s3) => NoMemory(s3)
  }

  // un_wp_page on the entry i of table t, up to the call of oom.
  function UnWp(s: Mem, t: int, i: int): (r: Outcome)
    requires Sound(s) && 0 <= t < |s.tab| && 0 <= i < PT && s.tab[t][i].Present?
    ensures !r.Panic? && Sound(r.mem) && r.mem.dir == s.dir && |r.mem.tab| == |s.tab| && r.mem.high == s.high
    ensures r.Done? ==> r.mem.tab[t][i].Present?
  {
    var was := s.tab[t][i].frame;
    if was >= LOW && s.count[was - LOW] == 1 then Done(SetEntry(s, t, i, Present(was, true)))
    else
      var (s1, f) := GetFree(s);
      if f == 0 then NoMemory(s1)
      else
        var s2 := if was >= LOW then s1.(count := s1.count[was - LOW := (s1.count[was - LOW] + 255) % 256]) else s1;
        var s3 := SetEntry(s2, t, i, Present(f, true));
        Done(s3.(data := s3.data[f := s3.data[was]]))
  }

  // The faults a user-mode write to (d, i) takes: do_no_page (outside the executable) or do_wp_page.
  function WriteFault(s: Mem, d: int, i: int): (r: Outcome)
    requires Sound(s) && 0 <= d < |s.dir| && 0 <= i < PT
    ensures !r.Panic? ==> Sound(r.mem) && r.mem.high == s.high
    ensures r.Done? ==> Entry(r.mem, d, i).Present?
  {
    var e := Entry(s, d, i);
    if e.Absent? then GetEmpty(s, d, i)
    else if !e.rw then UnWp(s, s.dir[d].frame, i)
    else Done(s)
  }

  // The store itself, once the entry is present.
  function Store(s: Mem, d: int, i: int, off: int, b: byte): (r: Mem)
    requires Sound(s) && 0 <= d < |s.dir| && 0 <= i < PT && 0 <= off < PAGE_SIZE
    requires Entry(s, d, i).Present?
    ensures Sound(r) && r == s.(data := r.data)
  {
    var f := Entry(s, d, i).frame;
    s.(data := s.data[f := s.data[f][off := b]])
  }

  // write_verify up to the call of oom.
  function Verified(s: Mem, d: int, i: int): (r: Outcome)
    requires Sound(s) && 0 <= d < |s.dir| && 0 <= i < PT
    ensures !r.Panic? && Sound(r.mem) && r.mem.high == s.high && r.mem.dir == s.dir
  {
    if Entry(s, d, i).Present? && !Entry(s, d, i).rw then UnWp(s, s.dir[d].frame, i) else Done(s)
  }

  // The loop of verify_area: n linear pages from page on; linear addresses have 32 bits.
  function VerifyPages(s: Mem, page: int, n: nat): (r: Outcome)
    requires Sound(s) && 0 <= page
    ensures !r.Panic? && Sound(r.mem)
    decreases n
  {
    if n == 0 then Done(s)
    else
      var p := page % (SLOTS * SLOT_DIRS * PT);
      var r1 := Verified(s, p / PT, p % PT);
      if r1.Done? then VerifyPages(r1.mem, page + 1, n - 1) else r1
  }
}
