/**
 Loading an ELF executable: the loadable segments are mapped page by page, their file bytes are
 copied in, and the program break is set behind them.  The loader works on the address spaces of
 `AddressSpaces`; what the program then sees is compared with the process image of chapter 5 of the
 System V gABI.
 */
module ElfLoader {
  import opened Basics
  import opened Sv39
  import opened FrameAllocator
  import opened PageTables
  import opened Paging
  import opened VmRegions
  import opened CowMachine
  import opened EagerCopy
  import opened CowRuns
  import opened SpaceTables
  import opened AddressSpaces

  datatype Error = SizeOverflow | InvalidProgramHeader | Overflow | ReadError

  /** `Panic`: no frame is left, or the page to copy to is not mapped. */
  datatype Result = Ok(entry: Address) | Err(error: Error) | Panic

  /** A program header; `load` says that its type is PT_LOAD. */
  datatype Segment = Segment(load: bool, flags: bv32, offset: Address, vaddr: Address, filesz: Address, memsz: Address)

  /** Program headers are refused when they are read if the file size exceeds the memory size. */
  predicate Parsed(segs: seq<Segment>) {
    forall i | 0 <= i < |segs| :: segs[i].filesz <= segs[i].memsz
  }

  const PF_X: bv32 := 1
  const PF_W: bv32 := 2
  const PF_R: bv32 := 4

  /** `convert_elf_flag_to_pte`. */
  function PteFlagsOf(flags: bv32): Flags {
    U.(r := flags & PF_R != 0, w := flags & PF_W != 0, x := flags & PF_X != 0)
  }

  // ---- where a segment goes ----

  /** `offset_by`, whose argument is the 64-bit size read as a signed number. */
  function OffsetBy(a: Address, amount: Address): Option<Address> {
    var d := if amount < U64_LIMIT / 2 then amount as int else amount as int - U64_LIMIT;
    if 0 <= a as int + d < U64_LIMIT then Some(a as int + d) else None
  }

  /** The end of the pages a segment is given. */
  function EndOf(s: Segment): Option<Address> {
    match OffsetBy(s.vaddr, s.memsz)
    case None => None
    case Some(end) => Some(PageUp(end))
  }

  /** Page `v` is one of those a segment is given. */
  predicate Touches(s: Segment, v: nat) {
    s.load && EndOf(s).Some? && s.vaddr / PAGE <= v < EndOf(s).value / PAGE
  }

  /** Why a segment is refused, if it is. */
  function Refusal(s: Segment, size: nat): Option<Error> {
    if !s.load then None
    else if s.offset + s.filesz >= U64_LIMIT then Some(SizeOverflow)
    else if s.offset + s.filesz > size then Some(InvalidProgramHeader)
    else if EndOf(s).None? then Some(Overflow)
    else None
  }

  /** The segment ends before the last page of the address space. */
  predicate Fits(s: Segment) {
    s.vaddr + s.memsz <= U64_LIMIT - PAGE && s.memsz < U64_LIMIT / 2
  }

  /** The segment may be read or executed and lies in the lower half of the address space. */
  predicate Loadable(s: Segment) {
    (PteFlagsOf(s.flags).r || PteFlagsOf(s.flags).x) && s.vaddr + s.memsz <= USER_PAGES * PAGE
  }

  lemma LoadableFits(s: Segment)
    requires Loadable(s)
    ensures Fits(s) && UserFlags(PteFlagsOf(s.flags)) && EndOf(s).Some? && EndOf(s).value / PAGE <= USER_PAGES && EndOf(s).value % PAGE == 0
  {
    AlignUpRounds(s.vaddr + s.memsz);
  }

  /** The end is out of range exactly when a size below 2^63 passes the end of the address space, or a larger one does not. */
  lemma EndRefused(s: Segment)
    ensures EndOf(s).None? <==> (s.memsz < 0x8000_0000_0000_0000 <==> s.vaddr + s.memsz >= U64_LIMIT)
  {}

  /** Every byte of an accepted segment lies in a page it is given if and only if the segment fits or is empty. */
  lemma PagesCover(s: Segment)
    requires s.load && EndOf(s).Some?
    ensures (forall x: nat | s.vaddr <= x < s.vaddr + s.memsz :: Touches(s, x / PAGE)) <==> Fits(s) || s.memsz == 0
  {
    var end := OffsetBy(s.vaddr, s.memsz).value;
    AlignUpRounds(end);
    if Fits(s) {
      forall x: nat | s.vaddr <= x < s.vaddr + s.memsz ensures Touches(s, x / PAGE) {
        assert x / PAGE < EndOf(s).value / PAGE;
      }
    } else if s.memsz > 0 {
      var last := s.vaddr + s.memsz - 1;
      assert !Touches(s, last / PAGE);
    }
  }

  // ---- the process image ----

  function ByteAt(pages: map<nat, EagerPage>, x: nat): Byte
    requires x / PAGE in pages
  {
    pages[x / PAGE].bytes[x % PAGE]
  }

  predicate FileRange(s: Segment, x: nat) {
    s.load && s.vaddr <= x < s.vaddr + s.filesz
  }

  /** The byte at an address: from the last of the first `n` segments whose file bytes cover it, or zero. */
  function ImageByte(segs: seq<Segment>, n: nat, file: seq<Byte>, x: nat): Byte
    requires n <= |segs|
  {
    if n == 0 then 0
    else
      var s := segs[n - 1];
      if FileRange(s, x) && s.offset + (x - s.vaddr) < |file| then file[s.offset + (x - s.vaddr)]
      else ImageByte(segs, n - 1, file, x)
  }

  /** What some segment that touches a page permits. */
  function Permitted(segs: seq<Segment>, n: nat, v: nat): Access
    requires n <= |segs|
  {
    if n == 0 then Access(false, false, false)
    else
      var a := Permitted(segs, n - 1, v);
      var f := PteFlagsOf(segs[n - 1].flags);
      if Touches(segs[n - 1], v) then Access(a.r || f.r, a.w || f.w, a.x || f.x) else a
  }

  ghost predicate Touched(segs: seq<Segment>, n: nat, v: nat)
    requires n <= |segs|
  {
    exists i: nat :: i < n && Touches(segs[i], v)
  }

  function Break(segs: seq<Segment>, n: nat): nat
    requires n <= |segs|
  {
    if n == 0 then 0
    else
      var b := Break(segs, n - 1);
      var s := segs[n - 1];
      if s.load && EndOf(s).Some? && EndOf(s).value > b then EndOf(s).value else b
  }

  /** The pages after the first `n` segments: which there are, what they permit and what they hold. */
  ghost predicate InMemory(segs: seq<Segment>, n: nat, file: seq<Byte>, pages: map<nat, EagerPage>)
    requires n <= |segs|
  {
    && (forall v: nat :: v in pages <==> Touched(segs, n, v))
    && (forall v: nat | v in pages :: pages[v].access == Permitted(segs, n, v))
    && (forall x: nat | x / PAGE in pages :: ByteAt(pages, x) == ImageByte(segs, n, file, x))
    && (forall i | 0 <= i < n && segs[i].load :: Holds(pages, segs[i], segs[i].filesz))
  }

  // ---- reading the file ----

  /** An open file; a read may deliver fewer bytes than asked for. */
  class File {
    const bytes: seq<Byte>
    var pos: nat

    constructor (bytes: seq<Byte>)
      ensures this.bytes == bytes && pos == 0
    {
      this.bytes, pos := bytes, 0;
    }

    method Seek(offset: nat) returns (ok: bool)
      modifies this
      ensures ok == (offset <= |bytes|) && pos == if ok then offset else old(pos)
    {
      ok := offset <= |bytes|;
      if ok { pos := offset; }
    }

    method Read(want: nat) returns (got: seq<Byte>)
      requires pos <= |bytes|
      modifies this
      ensures old(pos) <= pos <= |bytes| && got == bytes[old(pos)..pos] && |got| <= want
      ensures want > 0 && old(pos) < |bytes| ==> got != []
    {
      var most := if want < |bytes| - pos then want else |bytes| - pos;
      var n: nat :| n <= most && (most > 0 ==> n > 0);
      got := bytes[pos..pos + n];
      pos := pos + n;
    }
  }

  /** `read_exact_at`: short reads are repeated until the buffer is full or the file ends. */
  method ReadExactAt(file: File, offset: nat, len: nat) returns (buf: Option<seq<Byte>>)
    modifies file
    ensures buf.Some? <==> offset + len <= |file.bytes| || (len == 0 && offset <= |file.bytes|)
    ensures buf.Some? ==> buf.value == file.bytes[offset..offset + len]
  {
    var ok := file.Seek(offset);
    if !ok {
      return None;
    }
    var read := [];
    while |read| < len
      invariant |read| <= len && offset + |read| == file.pos <= |file.bytes| && read == file.bytes[offset..file.pos]
    {
      var got := file.Read(len - |read|);
      if got == [] {
        return None;
      }
      read := read + got;
    }
    buf := Some(read);
  }

  // ---- mapping and copying ----

  /** A page that is mapped with some flags, or gets them added. */
  function WithFlags(p: map<nat, EagerPage>, v: nat, f: Flags): EagerPage {
    if v in p then Widened(p[v], f) else Zeroed(f)
  }

  /** The pages `from` up to `to` are mapped with some flags, or get them added. */
  ghost predicate MapsTo(p: map<nat, EagerPage>, p': map<nat, EagerPage>, from: nat, to: nat, f: Flags) {
    && (forall v: nat :: v in p' <==> v in p || from <= v < to)
    && (forall v: nat | v in p' :: p'[v] == if from <= v < to then WithFlags(p, v, f) else p[v])
  }

  lemma MapsNone(p: map<nat, EagerPage>, from: nat, to: nat, f: Flags)
    requires to <= from
    ensures MapsTo(p, p, from, to, f)
  {}

  /** One more page is mapped. */
  lemma MapsOneMore(p: map<nat, EagerPage>, p1: map<nat, EagerPage>, from: nat, v: nat, f: Flags)
    requires from <= v && MapsTo(p, p1, from, v, f)
    ensures MapsTo(p, p1[v := WithFlags(p1, v, f)], from, v + 1, f)
  {}

  /** Bytes `a..a + |chunk|` of memory are replaced, within one page. */
  function Pasted(p: map<nat, EagerPage>, a: nat, chunk: seq<Byte>): map<nat, EagerPage>
    requires a / PAGE in p && a % PAGE + |chunk| <= PAGE
  {
    p[a / PAGE := p[a / PAGE].(bytes := Overlay(p[a / PAGE].bytes, a % PAGE, chunk))]
  }

  ghost predicate SameAccess(p: map<nat, EagerPage>, p': map<nat, EagerPage>) {
    p'.Keys == p.Keys && forall v | v in p :: p'[v].access == p[v].access
  }

  lemma CopiedByte(p: map<nat, EagerPage>, a: nat, chunk: seq<Byte>, x: nat)
    requires a / PAGE in p && a % PAGE + |chunk| <= PAGE && x / PAGE in p
    ensures ByteAt(Pasted(p, a, chunk), x) == if a <= x < a + |chunk| then chunk[x - a] else ByteAt(p, x)
  {}

  /** The first `n` file bytes of a segment are in memory. */
  ghost predicate CopiedTo(p: map<nat, EagerPage>, p': map<nat, EagerPage>, s: Segment, n: nat, file: seq<Byte>)
    requires s.offset + n <= |file|
  {
    SameAccess(p, p') && forall x: nat | x / PAGE in p ::
      ByteAt(p', x) == if s.vaddr <= x < s.vaddr + n then file[s.offset + (x - s.vaddr)] else ByteAt(p, x)
  }

  lemma CopiesOn(p: map<nat, EagerPage>, p1: map<nat, EagerPage>, s: Segment, n: nat, len: nat, file: seq<Byte>)
    requires s.offset + n + len <= |file| && CopiedTo(p, p1, s, n, file)
    requires (s.vaddr + n) / PAGE in p1 && (s.vaddr + n) % PAGE + len <= PAGE
    ensures CopiedTo(p, Pasted(p1, s.vaddr + n, file[s.offset + n..s.offset + n + len]), s, n + len, file)
  {
    var chunk := file[s.offset + n..s.offset + n + len];
    var p2 := Pasted(p1, s.vaddr + n, chunk);
    forall x: nat | x / PAGE in p
      ensures ByteAt(p2, x) == if s.vaddr <= x < s.vaddr + n + len then file[s.offset + (x - s.vaddr)] else ByteAt(p, x)
    {
      CopiedByte(p1, s.vaddr + n, chunk, x);
    }
  }

  // ---- the loader's steps on the address space ----

  /** No frame of space `a` is shared. */
  ghost predicate Private(s: Sys, a: Id) {
    a in s.views && forall v | v in s.views[a].pages :: var x := s.views[a].pages[v].ppn; x in s.counts && s.counts[x] == 1
  }

  lemma PrivateUnshared(s: Sys, pool: set<Frame>, a: Id, v: nat)
    requires Inv(s, pool) && Private(s, a)
    ensures Unshared(s.views, a, v)
  {
    if v in s.views[a].pages {
      MapsCounted(s, pool, a, v);
      OnlySharer(s.counts, Maps(s.views), a, s.views[a].pages[v].ppn);
    }
  }

  /** Every other program sees what it saw. */
  ghost predicate OthersSame(s: Sys, s': Sys, a: Id) {
    s'.views.Keys == s.views.Keys && forall b | b in s.views && b != a :: b in Abs(s) && b in Abs(s') && Abs(s')[b] == Abs(s)[b]
  }

  lemma OthersRefl(s: Sys, a: Id)
    ensures OthersSame(s, s, a)
  {
    AbsKeys(s);
  }

  lemma OthersOn(s: Sys, s1: Sys, s2: Sys, a: Id)
    requires OthersSame(s, s1, a) && OthersSame(s1, s2, a)
    ensures OthersSame(s, s2, a)
  {
    hide Abs;
  }

  /** What the program in space `a` sees, if the space exists. */
  ghost predicate Sees(s: Sys, a: Id, e: EagerSpace) {
    a in Abs(s) && Abs(s)[a] == e
  }

  predicate LoaderOp(op: Op) {
    op.MapPage? || op.Remap? || op.Fill? || op.Regions?
  }

  lemma LoaderPrivate(s: Sys, op: Op, s': Sys, a: Id)
    requires LoaderOp(op) && op.id == a && Private(s, a) && Performs(s, op, s', Done)
    ensures Private(s', a)
  {}

  /** What a step of the loader does to its space. */
  function Stepped(e: EagerSpace, op: Op): EagerSpace
    requires op.Fill? ==> op.off + |op.bytes| <= 4096
  {
    match op
    case MapPage(_, v, flags) => e.(pages := e.pages[v := Zeroed(flags)], region := e.region[v := flags])
    case Remap(_, v, flags) => if v in e.pages then e.(pages := e.pages[v := Widened(e.pages[v], flags)]) else e
    case Fill(_, v, off, bytes) => if v in e.pages then PageFilled(e, v, off, bytes) else e
    case Regions(_, region, startBrk, brk) => e.(region := region, startBrk := startBrk, brk := brk)
    case _ => e
  }

  /** The steps of the loader are those of the reference machine. */
  lemma SteppedIs(es: Eager, op: Op, a: Id)
    requires LoaderOp(op) && op.id == a && a in es && Applicable(es.Keys, op)
    ensures EagerStep(es, op).0 == es[a := Stepped(es[a], op)]
  {}

  /** A step of the loader changes its space as the reference machine does, and no other program sees it. */
  lemma LoaderStep(s: Sys, pool: set<Frame>, op: Op, s': Sys, a: Id, e: EagerSpace)
    requires Inv(s, pool) && LoaderOp(op) && op.id == a && Private(s, a) && Performs(s, op, s', Done) && s'.owner.Keys <= pool
    requires Sees(s, a, e) && (op.Fill? ==> op.off + |op.bytes| <= 4096)
    ensures Private(s', a) && OthersSame(s, s', a) && Sees(s', a, Stepped(e, op))
  {
    hide Inv, Abs, Step, EagerStep, Stepped, Private;
    AbsKeys(s);
    AbsKeys(s');
    LoaderPrivate(s, op, s', a);
    StepRefines(s, pool, op, s', Done);
    SteppedIs(Abs(s), op, a);
  }

  /** What the loader knows: its own map of pages agrees with the space. */
  ghost predicate MapAgrees(mapped: map<nat, Flags>, e: EagerSpace) {
    && mapped.Keys == e.pages.Keys == e.region.Keys
    && forall v | v in mapped :: AccessOf(mapped[v]) == e.pages[v].access
  }

  lemma MapStep(a: Id, e: EagerSpace, mapped: map<nat, Flags>, v: nat, flags: Flags)
    requires MapAgrees(mapped, e) && v !in mapped
    ensures var e' := Stepped(e, MapPage(a, v, flags));
            MapAgrees(mapped[v := flags], e') && PageGiven(e, e', v, flags)
  {}

  lemma AgreeKeys(mapped: map<nat, Flags>, e: EagerSpace)
    requires MapAgrees(mapped, e)
    ensures mapped.Keys == e.pages.Keys
  {}

  lemma PasteStep(a: Id, e: EagerSpace, mapped: map<nat, Flags>, x: nat, chunk: seq<Byte>)
    requires MapAgrees(mapped, e) && x / PAGE in e.pages && x % PAGE + |chunk| <= PAGE
    ensures var e' := Stepped(e, Fill(a, x / PAGE, x % PAGE, chunk));
            e' == e.(pages := Pasted(e.pages, x, chunk)) && MapAgrees(mapped, e')
  {}

  lemma WidenStep(a: Id, e: EagerSpace, mapped: map<nat, Flags>, v: nat, flags: Flags)
    requires MapAgrees(mapped, e) && v in mapped
    ensures var union := mapped[v].Or(flags);
            var e' := Stepped(e, Remap(a, v, union));
            MapAgrees(mapped[v := union], e') && PageGiven(e, e', v, flags)
  {
    assert AccessOf(mapped[v]) == e.pages[v].access;
    assert Widened(e.pages[v], mapped[v].Or(flags)) == Widened(e.pages[v], flags);
  }

  /** Page `v` is mapped with some flags, or gets them added; a region keeps its flags. */
  ghost predicate PageGiven(e: EagerSpace, e': EagerSpace, v: nat, flags: Flags) {
    e' == e.(pages := e.pages[v := WithFlags(e.pages, v, flags)], region := if v in e.region then e.region else e.region[v := flags])
  }

  /** The loader of the program in space `id`, with its own map of the pages it has mapped. */
  class Loader {
    const mm: MemoryManagers
    const id: Id
    var mapped: map<nat, Flags>
    /** What the program will see. */
    ghost var program: EagerSpace

    ghost predicate Valid()
      reads this, mm, mm.phys, mm.phys.frames, mm.phys.frames.pages
    {
      mm.Valid() && id in mm.spaces && Private(mm.Model(), id) && Sees(mm.Model(), id, program) && MapAgrees(mapped, program)
    }

    /** A loader for a space as `MemoryManager::new` makes it. */
    constructor (mm: MemoryManagers, id: Id)
      requires mm.Valid() && id in mm.spaces && Sees(mm.Model(), id, EagerSpace(map[], map[], 0, 0))
      ensures this.mm == mm && this.id == id && Valid() && program == EagerSpace(map[], map[], 0, 0)
    {
      hide MemoryManagers.Valid, Sound, Inv, Abs, Private, Sees;
      this.mm, this.id, mapped, program := mm, id, map[], EagerSpace(map[], map[], 0, 0);
      new;
      ManagerFacts();
      NothingShared(mm.Model(), mm.Pool(), id);
    }

    /** One page of a segment: `map_allocate_page`, or `remap_page` if it is there already. */
    method MapOne(v: nat, flags: Flags) returns (ok: bool)
      requires Valid() && v < USER_PAGES && UserFlags(flags)
      modifies this, mm, mm.phys, mm.phys.frames.pages
      ensures !ok ==> mm.phys.frames.Full()
      ensures ok ==> Valid() && PageGiven(old(program), program, v, flags) && OthersSame(old(mm.Model()), mm.Model(), id)
    {
      hide MemoryManagers.Valid, Sound, Inv, Abs, Performs, PageGiven, Allocator.Full, Private, Sees, Stepped, OthersSame, Unshared, MapAgrees;
      ghost var s, pool := mm.Model(), mm.Pool();
      ManagerFacts();
      PrivateUnshared(s, pool, id, v);
      SeesKeys(s, pool, id, program, mapped);
      if v !in mapped {
        MapStep(id, program, mapped, v, flags);
        ok := mm.MapAllocatePage(id, v * PAGE, flags);
        if ok {
          Took(s, pool, MapPage(id, v, flags));
          program := Stepped(program, MapPage(id, v, flags));
          mapped := mapped[v := flags];
        }
      } else {
        var union := mapped[v].Or(flags);
        WidenStep(id, program, mapped, v, flags);
        ok := mm.RemapPage(id, v * PAGE, union);
        Took(s, pool, Remap(id, v, union));
        program := Stepped(program, Remap(id, v, union));
        mapped := mapped[v := union];
      }
    }

    /** Gives a segment its pages: new ones are zeroed, and those it shares get its permissions added. */
    method MapSegment(s: Segment, end: Address) returns (ok: bool)
      requires Valid() && end % PAGE == 0 && end / PAGE <= USER_PAGES && UserFlags(PteFlagsOf(s.flags))
      modifies this, mm, mm.phys, mm.phys.frames.pages
      ensures !ok ==> mm.phys.frames.Full()
      ensures ok ==> Valid() && MapsTo(old(program.pages), program.pages, s.vaddr / PAGE, end / PAGE, PteFlagsOf(s.flags))
      ensures ok ==> FirstFlags(old(program.region), program.region, PteFlagsOf(s.flags))
      ensures ok ==> program == old(program).(pages := program.pages, region := program.region) && OthersSame(old(mm.Model()), mm.Model(), id)
    {
      hide MapsTo, FirstFlags, WithFlags, Loader.Valid, OthersSame, Allocator.Full;
      var flags := PteFlagsOf(s.flags);
      var va := AlignDown(s.vaddr);
      ghost var p, from, r, model := program.pages, s.vaddr / PAGE, program.region, mm.Model();
      assert va / PAGE == from;
      MapsNone(p, from, va / PAGE, flags);
      FirstNone(r, flags);
      OthersRefl(model, id);
      while va < end
        invariant va % PAGE == 0 && from <= va / PAGE && (va <= end || va / PAGE == from)
        invariant Valid() && MapsTo(p, program.pages, from, va / PAGE, flags) && FirstFlags(r, program.region, flags)
        invariant program == old(program).(pages := program.pages, region := program.region) && OthersSame(model, mm.Model(), id)
        decreases end - va
      {
        var v := va / PAGE;
        ghost var before := mm.Model();
        MapsOneMore(p, program.pages, from, v, flags);
        FirstMore(r, program.region, v, flags);
        ok := MapOne(v, flags);
        if !ok {
          return;
        }
        OthersOn(model, before, mm.Model(), id);
        va := va + PAGE;
      }
      MapsEnd(p, program.pages, from, va / PAGE, end / PAGE, flags);
      ok := true;
    }

    /** Writes bytes to one page, if it is mapped. */
    method CopyOne(a: Address, chunk: seq<Byte>) returns (ok: bool)
      requires Valid() && a / PAGE < USER_PAGES && a % PAGE + |chunk| <= PAGE
      modifies this, mm.phys`mem
      ensures ok <==> a / PAGE in old(program.pages)
      ensures !ok ==> Valid() && program == old(program) && mm.Model() == old(mm.Model())
      ensures ok ==> Valid() && program == old(program).(pages := Pasted(old(program.pages), a, chunk)) && OthersSame(old(mm.Model()), mm.Model(), id)
    {
      hide MemoryManagers.Valid, Sound, Inv, Abs, Performs, Allocator.Full, Private, Sees, OthersSame, Unshared, MapAgrees, Pasted, Stepped;
      ghost var s, pool := mm.Model(), mm.Pool();
      ManagerFacts();
      PrivateUnshared(s, pool, id, a / PAGE);
      SeesKeys(s, pool, id, program, mapped);
      AgreeKeys(mapped, program);
      ok := mm.CopyToPage(id, a, chunk);
      if ok {
        PasteStep(id, program, mapped, a, chunk);
        Took(s, pool, Fill(id, a / PAGE, a % PAGE, chunk));
        program := Stepped(program, Fill(id, a / PAGE, a % PAGE, chunk));
      }
    }

    /** Copies a segment's file bytes to its pages, one page at a time. */
    method CopySegment(s: Segment, file: File) returns (r: Result)
      requires Valid() && s.offset + s.filesz <= |file.bytes| && s.vaddr + s.filesz <= USER_PAGES * PAGE
      modifies this, mm.phys`mem, file
      ensures Valid() && program == old(program).(pages := program.pages) && OthersSame(old(mm.Model()), mm.Model(), id)
      ensures r.Ok? || r == Result.Panic
      ensures r.Ok? <==> Holds(old(program.pages), s, s.filesz)
      ensures r.Ok? ==> CopiedTo(old(program.pages), program.pages, s, s.filesz, file.bytes) && Holds(program.pages, s, s.filesz)
    {
      hide CopiedTo, Pasted, Holds, Loader.Valid, OthersSame;
      ghost var p, model := program.pages, mm.Model();
      var copied := 0;
      CopiesNone(p, s, file.bytes);
      OthersRefl(model, id);
      while copied < s.filesz
        invariant copied <= s.filesz && Valid() && program == old(program).(pages := program.pages) && OthersSame(model, mm.Model(), id)
        invariant CopiedTo(p, program.pages, s, copied, file.bytes) && Holds(program.pages, s, copied)
      {
        var a := s.vaddr + copied;
        HoldsAt(p, program.pages, s, copied, file.bytes);
        if a >= U64_LIMIT {
          return Err(SizeOverflow);
        }
        var len := if PAGE - a % PAGE < s.filesz - copied then PAGE - a % PAGE else s.filesz - copied;
        var buf := ReadExactAt(file, s.offset + copied, len);
        if buf.None? {
          return Err(ReadError);
        }
        ghost var p1, before := program.pages, mm.Model();
        var ok := CopyOne(a, buf.value);
        if !ok {
          NotHeld(p, program.pages, s, copied, file.bytes);
          return Result.Panic;
        }
        CopiesOn(p, p1, s, copied, len, file.bytes);
        HoldsOn(p1, s, copied, len, buf.value);
        OthersOn(model, before, mm.Model(), id);
        copied := copied + len;
      }
      HoldsBack(p, program.pages, s, file.bytes);
      r := Ok(0);
    }

    /** `load_executable`, after the headers have been read. */
    method LoadExecutable(segs: seq<Segment>, entry: Address, file: File) returns (r: Result)
      requires Valid() && program == EagerSpace(map[], map[], 0, 0) && Parsed(segs) && AllLoadable(segs, |file.bytes|)
      modifies this, mm, mm.phys, mm.phys.frames.pages, file
      ensures r.Panic? ==> mm.phys.frames.Full()
      ensures !r.Panic? ==> r == Verdict(segs, |file.bytes|, entry) && Valid() && OthersSame(old(mm.Model()), mm.Model(), id)
      ensures r.Ok? ==> Image(segs, file.bytes, program)
    {
      hide InMemory, MapsTo, CopiedTo, FirstFlags, RegionsOf, Holds, Loader.Valid, Refusal, Refused, Break, EndOf, AllLoadable, Loadable, Fits, OthersSame, Allocator.Full;
      var end := 0;
      ghost var model := mm.Model();
      OthersRefl(model, id);
      assert InMemory(segs, 0, file.bytes, program.pages) && RegionsOf(segs, 0, program.region) by { NothingLoaded(segs, file.bytes); }
      NothingRefused(segs, |file.bytes|);
      for n := 0 to |segs|
        invariant Valid() && InMemory(segs, n, file.bytes, program.pages) && RegionsOf(segs, n, program.region)
        invariant end == Break(segs, n) < U64_LIMIT && Refused(segs, n, |file.bytes|).None? && OthersSame(model, mm.Model(), id)
      {
        var s := segs[n];
        RefusedMore(segs, n, |file.bytes|);
        BreakMore(segs, n);
        RefusalIs(s, |file.bytes|);
        if !s.load {
          LoadedSkip(segs, n, file.bytes, program.pages);
          RegionsSkip(segs, n, program.region);
          continue;
        }
        if s.offset + s.filesz >= U64_LIMIT {
          return Err(SizeOverflow);
        }
        if s.offset + s.filesz > |file.bytes| {
          return Err(InvalidProgramHeader);
        }
        var to := EndOf(s);
        if to.None? {
          return Err(Overflow);
        }
        end := if to.value > end then to.value else end;
        ghost var p, reg, m0 := program.pages, program.region, mm.Model();
        Reached(segs, n, |file.bytes|);
        ProgramKeys();
        var ok := MapSegment(s, to.value);
        if !ok {
          return Result.Panic;
        }
        ghost var p1, m1 := program.pages, mm.Model();
        ProgramKeys();
        LoadableHolds(segs, n, p, p1);
        OthersOn(model, m0, m1, id);
        r := CopySegment(s, file);
        OthersOn(model, m1, mm.Model(), id);
        LoadedMore(segs, n, file.bytes, p, p1, program.pages);
        RegionsMore(segs, n, file.bytes, p, reg, program.region) by { MappedOnly(s, p, p1, program.region); }
      }
      ghost var m2 := mm.Model();
      SetInitialBrk(end);
      OthersOn(model, m2, mm.Model(), id);
      r := Ok(entry);
    }

    method SetInitialBrk(brk: Address)
      requires Valid()
      modifies this, mm`spaces, mm`views
      ensures Valid() && program == old(program).(startBrk := brk, brk := brk) && OthersSame(old(mm.Model()), mm.Model(), id)
    {
      hide MemoryManagers.Valid, Sound, Inv, Abs, Performs, Allocator.Full, Private, Sees, OthersSame;
      ghost var s, pool := mm.Model(), mm.Pool();
      ManagerFacts();
      SeesRegion(s, pool, id, program);
      mm.SetInitialBrk(id, brk);
      Took(s, pool, Regions(id, program.region, brk, brk));
      program := program.(startBrk := brk, brk := brk);
    }

    lemma ProgramKeys()
      requires Valid()
      ensures program.pages.Keys == program.region.Keys
    {
      hide MemoryManagers.Valid, Private, Sees;
    }

    /** What a valid manager gives. */
    lemma ManagerFacts()
      requires mm.Valid()
      ensures Inv(mm.Model(), mm.Pool()) && mm.Model().owner.Keys <= mm.Pool() && mm.views.Keys == mm.spaces.Keys
    {
      ModelFacts(mm.spaces, mm.views, mm.owner, mm.phys.mem, mm.phys.counts, mm.phys.Used(), mm.Pool());
    }

    /** The manager has performed a step of the loader. */
    lemma Took(s: Sys, pool: set<Frame>, op: Op)
      requires mm.Valid() && Inv(s, pool) && pool == mm.Pool() && LoaderOp(op) && op.id == id && (op.Fill? ==> op.off + |op.bytes| <= 4096)
      requires Private(s, id) && Sees(s, id, program) && Performs(s, op, mm.Model(), Done)
      ensures id in mm.spaces && Private(mm.Model(), id) && Sees(mm.Model(), id, Stepped(program, op)) && OthersSame(s, mm.Model(), id)
    {
      hide MemoryManagers.Valid, Inv, Abs, Performs, Stepped;
      ManagerFacts();
      LoaderStep(s, pool, op, mm.Model(), id, program);
    }
  }

  lemma ModelFacts(spaces: map<Id, Space>, views: map<Id, View>, owner: map<Frame, Owner>,
                   m: Mem, counts: map<Frame, U16>, used: set<Frame>, pool: set<Frame>)
    requires Sound(spaces, views, owner, m, counts, used, pool)
    ensures Inv(State(views, owner, m, counts), pool) && owner.Keys <= pool && views.Keys == spaces.Keys
  {}

  lemma NothingShared(s: Sys, pool: set<Frame>, a: Id)
    requires Inv(s, pool) && Sees(s, a, EagerSpace(map[], map[], 0, 0))
    ensures Private(s, a)
  {
    SeesKeys(s, pool, a, EagerSpace(map[], map[], 0, 0), map[]);
  }

  lemma SeesRegion(s: Sys, pool: set<Frame>, a: Id, e: EagerSpace)
    requires a in s.views && Sees(s, a, e)
    ensures s.views[a].region == e.region
  {}

  lemma SeesKeys(s: Sys, pool: set<Frame>, a: Id, e: EagerSpace, mapped: map<nat, Flags>)
    requires Inv(s, pool) && a in s.views && Sees(s, a, e) && MapAgrees(mapped, e)
    ensures s.views[a].region.Keys == mapped.Keys && s.views[a].pages.Keys == mapped.Keys
  {
    AllBacked(s, pool);
  }

  // ---- the whole program ----

  /** The first refusal among the first `n` segments. */
  function Refused(segs: seq<Segment>, n: nat, size: nat): Option<Error>
    requires n <= |segs|
  {
    if n == 0 then None
    else if Refused(segs, n - 1, size).Some? then Refused(segs, n - 1, size)
    else Refusal(segs[n - 1], size)
  }

  lemma {:induction false} RefusedStays(segs: seq<Segment>, n: nat, m: nat, size: nat)
    requires n <= m <= |segs| && Refused(segs, n, size).Some?
    ensures Refused(segs, m, size) == Refused(segs, n, size)
    decreases m - n
  {
    if n < m { RefusedStays(segs, n, m - 1, size); }
  }

  lemma {:induction false} NoneRefused(segs: seq<Segment>, n: nat, size: nat, i: nat)
    requires i < n <= |segs| && Refused(segs, n, size).None?
    ensures Refusal(segs[i], size).None? && Refused(segs, i + 1, size).None?
    decreases n
  {
    if i < n - 1 { NoneRefused(segs, n - 1, size, i); }
  }

  /** Every segment the loader comes to map is loadable. */
  predicate AllLoadable(segs: seq<Segment>, size: nat) {
    forall i | 0 <= i < |segs| && segs[i].load && Refused(segs, i + 1, size).None? :: Loadable(segs[i])
  }

  lemma Reached(segs: seq<Segment>, n: nat, size: nat)
    requires n < |segs| && segs[n].load && AllLoadable(segs, size) && Refused(segs, n + 1, size).None?
    ensures Loadable(segs[n]) && UserFlags(PteFlagsOf(segs[n].flags)) && EndOf(segs[n]).Some?
    ensures EndOf(segs[n]).value / PAGE <= USER_PAGES && EndOf(segs[n]).value % PAGE == 0 && segs[n].vaddr + segs[n].memsz <= USER_PAGES * PAGE
  {
    LoadableFits(segs[n]);
  }

  /** A region has the flags of the first segment that touches its page. */
  ghost predicate RegionsOf(segs: seq<Segment>, n: nat, region: map<nat, Flags>)
    requires n <= |segs|
  {
    forall v: nat | v in region :: exists i: nat :: i < n && FirstTouch(segs, i, v) && region[v] == PteFlagsOf(segs[i].flags)
  }

  ghost predicate FirstTouch(segs: seq<Segment>, i: nat, v: nat)
    requires i < |segs|
  {
    Touches(segs[i], v) && forall j: nat | j < i :: !Touches(segs[j], v)
  }

  lemma RegionsMore(segs: seq<Segment>, n: nat, file: seq<Byte>, p: map<nat, EagerPage>, r: map<nat, Flags>, r': map<nat, Flags>)
    requires n < |segs| && InMemory(segs, n, file, p) && p.Keys == r.Keys && RegionsOf(segs, n, r)
    requires FirstFlags(r, r', PteFlagsOf(segs[n].flags)) && forall v: nat | v in r' :: v in r || Touches(segs[n], v)
    ensures RegionsOf(segs, n + 1, r')
  {}

  /** The pages after one more segment. */
  lemma LoadedMore(segs: seq<Segment>, n: nat, file: seq<Byte>, p: map<nat, EagerPage>, p1: map<nat, EagerPage>, p2: map<nat, EagerPage>)
    requires n < |segs| && segs[n].load && EndOf(segs[n]).Some? && segs[n].offset + segs[n].filesz <= |file|
    requires InMemory(segs, n, file, p)
    requires MapsTo(p, p1, segs[n].vaddr / PAGE, EndOf(segs[n]).value / PAGE, PteFlagsOf(segs[n].flags))
    requires CopiedTo(p1, p2, segs[n], segs[n].filesz, file) && Holds(p2, segs[n], segs[n].filesz)
    ensures InMemory(segs, n + 1, file, p2)
  {
    hide ByteAt, ImageByte, Permitted, Touched, EndOf, PteFlagsOf;
    forall v: nat ensures v in p2 <==> Touched(segs, n + 1, v) { TouchedMore(segs, n, v); }
    forall v: nat | v in p2 ensures p2[v].access == Permitted(segs, n + 1, v) {
      PermittedMore(segs, n, v);
      if v !in p { UntouchedPermits(segs, n, v); }
    }
    forall x: nat | x / PAGE in p2 ensures ByteAt(p2, x) == ImageByte(segs, n + 1, file, x) {
      ImageMore(segs, n, file, x);
      NewByte(segs, n, file, p, p1, x);
    }
    forall i | 0 <= i < n + 1 && segs[i].load ensures Holds(p2, segs[i], segs[i].filesz) {
      assert i < n ==> Holds(p, segs[i], segs[i].filesz);
    }
  }

  lemma TouchedMore(segs: seq<Segment>, n: nat, v: nat)
    requires n < |segs|
    ensures Touched(segs, n + 1, v) <==> Touched(segs, n, v) || Touches(segs[n], v)
  {}

  lemma PermittedMore(segs: seq<Segment>, n: nat, v: nat)
    requires n < |segs|
    ensures var a, f := Permitted(segs, n, v), PteFlagsOf(segs[n].flags);
            Permitted(segs, n + 1, v) == if Touches(segs[n], v) then Access(a.r || f.r, a.w || f.w, a.x || f.x) else a
  {}

  lemma ImageMore(segs: seq<Segment>, n: nat, file: seq<Byte>, x: nat)
    requires n < |segs| && segs[n].load && segs[n].offset + segs[n].filesz <= |file|
    ensures var s := segs[n];
            ImageByte(segs, n + 1, file, x) == if s.vaddr <= x < s.vaddr + s.filesz then file[s.offset + (x - s.vaddr)] else ImageByte(segs, n, file, x)
  {}

  lemma {:induction false} UntouchedPermits(segs: seq<Segment>, n: nat, v: nat)
    requires n <= |segs| && !Touched(segs, n, v)
    ensures Permitted(segs, n, v) == Access(false, false, false)
  {
    if n > 0 {
      TouchedMore(segs, n - 1, v);
      UntouchedPermits(segs, n - 1, v);
    }
  }

  /** An address no segment's file bytes cover holds zero. */
  lemma {:induction false} ImageZero(segs: seq<Segment>, n: nat, file: seq<Byte>, x: nat)
    requires n <= |segs| && forall i | 0 <= i < n :: !FileRange(segs[i], x)
    ensures ImageByte(segs, n, file, x) == 0
  {
    if n > 0 { ImageZero(segs, n - 1, file, x); }
  }

  /** Before the copy a byte is what it was, and zero in a new page, which no earlier segment covers. */
  lemma NewByte(segs: seq<Segment>, n: nat, file: seq<Byte>, p: map<nat, EagerPage>, p1: map<nat, EagerPage>, x: nat)
    requires n < |segs| && InMemory(segs, n, file, p) && x / PAGE in p1
    requires EndOf(segs[n]).Some? && MapsTo(p, p1, segs[n].vaddr / PAGE, EndOf(segs[n]).value / PAGE, PteFlagsOf(segs[n].flags))
    ensures ByteAt(p1, x) == ImageByte(segs, n, file, x)
  {
    hide ImageByte;
    if x / PAGE !in p {
      forall i | 0 <= i < n ensures !FileRange(segs[i], x) {
        assert segs[i].load ==> Holds(p, segs[i], segs[i].filesz);
      }
      ImageZero(segs, n, file, x);
      assert p1[x / PAGE] == Zeroed(PteFlagsOf(segs[n].flags));
    }
  }

  lemma LoadedSkip(segs: seq<Segment>, n: nat, file: seq<Byte>, p: map<nat, EagerPage>)
    requires n < |segs| && !segs[n].load && InMemory(segs, n, file, p)
    ensures InMemory(segs, n + 1, file, p)
  {}

  /** A region keeps the flags of the segment that created it. */
  ghost predicate FirstFlags(r: map<nat, Flags>, r': map<nat, Flags>, f: Flags) {
    r.Keys <= r'.Keys && forall v | v in r' :: r'[v] == if v in r then r[v] else f
  }

  lemma FirstNone(r: map<nat, Flags>, f: Flags)
    ensures FirstFlags(r, r, f)
  {}

  lemma FirstMore(r: map<nat, Flags>, r1: map<nat, Flags>, v: nat, f: Flags)
    requires FirstFlags(r, r1, f)
    ensures FirstFlags(r, if v in r1 then r1 else r1[v := f], f)
  {}

  lemma MapsEnd(p: map<nat, EagerPage>, p': map<nat, EagerPage>, from: nat, to: nat, end: nat, f: Flags)
    requires MapsTo(p, p', from, to, f) && (to == end || (end <= to == from))
    ensures MapsTo(p, p', from, end, f)
  {}

  /** The pages of the first `n` bytes of a segment are there. */
  ghost predicate Holds(p: map<nat, EagerPage>, s: Segment, n: nat) {
    forall x: nat | s.vaddr <= x < s.vaddr + n :: x / PAGE in p
  }

  lemma CopiesNone(p: map<nat, EagerPage>, s: Segment, file: seq<Byte>)
    requires s.offset <= |file|
    ensures CopiedTo(p, p, s, 0, file) && Holds(p, s, 0)
  {}

  lemma HoldsAt(p: map<nat, EagerPage>, p': map<nat, EagerPage>, s: Segment, n: nat, file: seq<Byte>)
    requires s.offset + n <= |file| && CopiedTo(p, p', s, n, file) && n < s.filesz
    ensures Holds(p, s, s.filesz) ==> (s.vaddr + n) / PAGE in p'
  {}

  lemma NotHeld(p: map<nat, EagerPage>, p': map<nat, EagerPage>, s: Segment, n: nat, file: seq<Byte>)
    requires s.offset + n <= |file| && CopiedTo(p, p', s, n, file) && n < s.filesz && (s.vaddr + n) / PAGE !in p'
    ensures !Holds(p, s, s.filesz)
  {}

  lemma HoldsBack(p: map<nat, EagerPage>, p': map<nat, EagerPage>, s: Segment, file: seq<Byte>)
    requires s.offset + s.filesz <= |file| && CopiedTo(p, p', s, s.filesz, file) && Holds(p', s, s.filesz)
    ensures Holds(p, s, s.filesz)
  {}

  lemma HoldsOn(p: map<nat, EagerPage>, s: Segment, n: nat, len: nat, chunk: seq<Byte>)
    requires Holds(p, s, n) && (s.vaddr + n) / PAGE in p && |chunk| == len && (s.vaddr + n) % PAGE + len <= PAGE
    ensures Holds(Pasted(p, s.vaddr + n, chunk), s, n + len)
  {}

  /** The loaded space is the image of the segments. */
  ghost predicate Image(segs: seq<Segment>, file: seq<Byte>, space: EagerSpace) {
    && InMemory(segs, |segs|, file, space.pages) && RegionsOf(segs, |segs|, space.region)
    && space.startBrk == space.brk == Break(segs, |segs|)
    && Refused(segs, |segs|, |file|).None?
  }

  function Verdict(segs: seq<Segment>, size: nat, entry: Address): Result {
    match Refused(segs, |segs|, size)
    case Some(e) => Err(e)
    case None => Ok(entry)
  }

  lemma NothingLoaded(segs: seq<Segment>, file: seq<Byte>)
    ensures InMemory(segs, 0, file, map[]) && RegionsOf(segs, 0, map[])
  {}

  lemma NothingRefused(segs: seq<Segment>, size: nat)
    ensures Refused(segs, 0, size).None? && Break(segs, 0) == 0
  {}

  lemma RefusedMore(segs: seq<Segment>, n: nat, size: nat)
    requires n < |segs| && Refused(segs, n, size).None?
    ensures Refused(segs, n + 1, size) == Refusal(segs[n], size)
    ensures Refusal(segs[n], size).Some? ==> Refused(segs, |segs|, size) == Refusal(segs[n], size)
  {
    if Refusal(segs[n], size).Some? { RefusedStays(segs, n + 1, |segs|, size); }
  }

  lemma RefusalIs(s: Segment, size: nat)
    ensures !s.load ==> Refusal(s, size).None?
    ensures s.load && s.offset + s.filesz >= U64_LIMIT ==> Refusal(s, size) == Some(SizeOverflow)
    ensures s.load && s.offset + s.filesz < U64_LIMIT && s.offset + s.filesz > size ==> Refusal(s, size) == Some(InvalidProgramHeader)
    ensures s.load && s.offset + s.filesz < U64_LIMIT && s.offset + s.filesz <= size ==> Refusal(s, size) == if EndOf(s).None? then Some(Overflow) else None
  {}

  lemma BreakMore(segs: seq<Segment>, n: nat)
    requires n < |segs|
    ensures var b, s := Break(segs, n), segs[n];
            Break(segs, n + 1) == if s.load && EndOf(s).Some? && EndOf(s).value > b then EndOf(s).value else b
  {}

  lemma RegionsSkip(segs: seq<Segment>, n: nat, r: map<nat, Flags>)
    requires n < |segs| && RegionsOf(segs, n, r)
    ensures RegionsOf(segs, n + 1, r)
  {}

  /** The pages of a loadable segment hold all its bytes. */
  lemma LoadableHolds(segs: seq<Segment>, n: nat, p: map<nat, EagerPage>, p1: map<nat, EagerPage>)
    requires n < |segs| && segs[n].load && EndOf(segs[n]).Some? && Parsed(segs) && Loadable(segs[n])
    requires MapsTo(p, p1, segs[n].vaddr / PAGE, EndOf(segs[n]).value / PAGE, PteFlagsOf(segs[n].flags))
    ensures Holds(p1, segs[n], segs[n].filesz) && segs[n].vaddr + segs[n].filesz <= USER_PAGES * PAGE
  {
    var s := segs[n];
    LoadableFits(s);
    PagesCover(s);
    forall x: nat | s.vaddr <= x < s.vaddr + s.filesz ensures x / PAGE in p1 {
      assert s.vaddr <= x < s.vaddr + s.memsz;
      assert Touches(s, x / PAGE);
    }
  }

  lemma MappedOnly(s: Segment, p: map<nat, EagerPage>, p1: map<nat, EagerPage>, region: map<nat, Flags>)
    requires s.load && EndOf(s).Some? && p1.Keys == region.Keys
    requires MapsTo(p, p1, s.vaddr / PAGE, EndOf(s).value / PAGE, PteFlagsOf(s.flags))
    ensures forall v: nat | v in region :: v in p || Touches(s, v)
  {}

  // ---- what the image means ----

  /** The loadable segments occupy disjoint addresses. */
  predicate ByteDisjoint(segs: seq<Segment>) {
    forall i, j | 0 <= i < |segs| && 0 <= j < |segs| && i != j && segs[i].load && segs[j].load ::
      segs[i].vaddr + segs[i].memsz <= segs[j].vaddr || segs[j].vaddr + segs[j].memsz <= segs[i].vaddr
  }

  lemma {:induction false} ImageIs(segs: seq<Segment>, n: nat, file: seq<Byte>, x: nat, i: nat)
    requires i < n <= |segs| && Parsed(segs) && ByteDisjoint(segs) && segs[i].load && segs[i].offset + segs[i].filesz <= |file|
    requires segs[i].vaddr <= x < segs[i].vaddr + segs[i].memsz
    ensures ImageByte(segs, n, file, x) == if x < segs[i].vaddr + segs[i].filesz then file[segs[i].offset + (x - segs[i].vaddr)] else 0
    decreases n
  {
    if i < n - 1 {
      ImageIs(segs, n - 1, file, x, i);
    } else if x >= segs[i].vaddr + segs[i].filesz {
      ImageZero(segs, n - 1, file, x);
    }
  }

  /**
   Loading byte-disjoint segments that fit, even ones that share pages, gives the process image of
   the gABI: each segment's file bytes are at its addresses, and the rest of its memory is zero.
   */
  lemma ProcessImage(segs: seq<Segment>, file: seq<Byte>, space: EagerSpace, i: nat, x: nat)
    requires Image(segs, file, space) && Parsed(segs) && AllLoadable(segs, |file|) && ByteDisjoint(segs)
    requires i < |segs| && segs[i].load && segs[i].vaddr <= x < segs[i].vaddr + segs[i].memsz
    ensures x / PAGE in space.pages && segs[i].offset + segs[i].filesz <= |file|
    ensures ByteAt(space.pages, x) == if x < segs[i].vaddr + segs[i].filesz then file[segs[i].offset + (x - segs[i].vaddr)] else 0
  {
    hide ImageByte, ByteAt, Refused, Permitted, EndOf, Fits;
    NoneRefused(segs, |segs|, |file|, i);
    Reached(segs, i, |file|);
    LoadableFits(segs[i]);
    PagesCover(segs[i]);
    assert Touches(segs[i], x / PAGE);
    assert Touched(segs, |segs|, x / PAGE);
    ImageIs(segs, |segs|, file, x, i);
  }

  /** A page may be read, written or executed exactly when some segment touching it has bit 2, 1 or 0 of its flags set. */
  lemma {:induction false} PermittedIs(segs: seq<Segment>, n: nat, v: nat)
    requires n <= |segs|
    ensures Permitted(segs, n, v).r <==> exists i: nat :: i < n && Touches(segs[i], v) && segs[i].flags & 4 != 0
    ensures Permitted(segs, n, v).w <==> exists i: nat :: i < n && Touches(segs[i], v) && segs[i].flags & 2 != 0
    ensures Permitted(segs, n, v).x <==> exists i: nat :: i < n && Touches(segs[i], v) && segs[i].flags & 1 != 0
  {
    if n > 0 {
      PermittedIs(segs, n - 1, v);
      assert Touches(segs[n - 1], v) || !Touches(segs[n - 1], v);
    }
  }

  /** Space `a` is the loaded image of byte-disjoint segments. */
  ghost predicate JustLoaded(s: Sys, pool: set<Frame>, a: Id, segs: seq<Segment>, file: seq<Byte>, e: EagerSpace) {
    && Inv(s, pool) && a in s.views && Sees(s, a, e) && Image(segs, file, e)
    && Parsed(segs) && AllLoadable(segs, |file|) && ByteDisjoint(segs)
  }

  /** Address `x` is one of the addresses of segment `i`. */
  predicate Occupies(segs: seq<Segment>, i: nat, x: nat) {
    i < |segs| && segs[i].load && segs[i].vaddr <= x < segs[i].vaddr + segs[i].memsz
  }

  /** Some segment with one of these flags touches the page. */
  ghost predicate SomeSegment(segs: seq<Segment>, v: nat, flags: bv32) {
    exists j: nat :: j < |segs| && Touches(segs[j], v) && segs[j].flags & flags != 0
  }

  /** What a program that has just been loaded gets when it loads a byte: the image if some segment there is readable. */
  lemma ImageLoads(s: Sys, pool: set<Frame>, a: Id, segs: seq<Segment>, file: seq<Byte>, e: EagerSpace, i: nat, x: nat, s': Sys, out: Outcome)
    requires JustLoaded(s, pool, a, segs, file, e) && Occupies(segs, i, x) && Performs(s, Load(a, x / PAGE, x % PAGE), s', out)
    requires s'.owner.Keys <= pool
    ensures segs[i].offset + segs[i].filesz <= |file| && Abs(s') == Abs(s)
    ensures out.Loaded? <==> SomeSegment(segs, x / PAGE, 4)
    ensures segs[i].flags & 4 != 0 ==>
              out == Loaded(if x < segs[i].vaddr + segs[i].filesz then file[segs[i].offset + (x - segs[i].vaddr)] else 0)
  {
    hide Inv, Abs, Step, Touches, Permitted, AllLoadable, Parsed, ByteDisjoint;
    StepRefines(s, pool, Load(a, x / PAGE, x % PAGE), s', out);
    ProcessImage(segs, file, e, i, x);
    PermittedIs(segs, |segs|, x / PAGE);
    assert Touches(segs[i], x / PAGE) by { ByteTouches(segs, i, |file|, x); }
  }

  lemma ByteTouches(segs: seq<Segment>, i: nat, size: nat, x: nat)
    requires AllLoadable(segs, size) && Refused(segs, |segs|, size).None?
    requires i < |segs| && segs[i].load && segs[i].vaddr <= x < segs[i].vaddr + segs[i].memsz
    ensures Touches(segs[i], x / PAGE)
  {
    hide Refused, EndOf, Fits;
    NoneRefused(segs, |segs|, size, i);
    Reached(segs, i, size);
    LoadableFits(segs[i]);
    PagesCover(segs[i]);
  }

  /** A store of a program that has just been loaded succeeds, at that byte alone, if and only if some segment there is writable. */
  lemma ImageStores(s: Sys, pool: set<Frame>, a: Id, segs: seq<Segment>, file: seq<Byte>, e: EagerSpace, i: nat, x: nat, byte: Byte, s': Sys, out: Outcome)
    requires JustLoaded(s, pool, a, segs, file, e) && Occupies(segs, i, x) && Performs(s, Store(a, x / PAGE, x % PAGE, byte), s', out)
    requires s'.owner.Keys <= pool
    ensures out == Done <==> SomeSegment(segs, x / PAGE, 2)
    ensures segs[i].flags & 2 != 0 ==> out == Done
    ensures x / PAGE in e.pages && a in Abs(s') && Abs(s')[a] == if out == Done then Poked(e, x / PAGE, x % PAGE, byte) else e
  {
    hide Inv, Abs, Step, Touches, Permitted, AllLoadable, Parsed, ByteDisjoint;
    StepRefines(s, pool, Store(a, x / PAGE, x % PAGE, byte), s', out);
    ProcessImage(segs, file, e, i, x);
    PermittedIs(segs, |segs|, x / PAGE);
    assert Touches(segs[i], x / PAGE) by { ByteTouches(segs, i, |file|, x); }
  }

  /** The initial break is page-aligned and at or above the end of every segment that fits. */
  lemma {:induction false} BreakAbove(segs: seq<Segment>, n: nat, i: nat)
    requires i < n <= |segs| && segs[i].load && EndOf(segs[i]).Some? && Fits(segs[i])
    ensures segs[i].vaddr + segs[i].memsz <= Break(segs, n)
    decreases n
  {
    if i < n - 1 {
      BreakAbove(segs, n - 1, i);
    } else {
      AlignUpRounds(OffsetBy(segs[i].vaddr, segs[i].memsz).value);
    }
  }

  /**
   A loaded space is honest, so that it can be forked like a deep copy, if and only if every page that
   some segment makes writable was first mapped by a writable segment.
   */
  lemma LoadedHonest(s: Sys, pool: set<Frame>, a: Id, segs: seq<Segment>, file: seq<Byte>, e: EagerSpace)
    requires Inv(s, pool) && a in s.views && Sees(s, a, e) && Image(segs, file, e)
    ensures Honest(s.views[a]) <==> forall v: nat | Touched(segs, |segs|, v) && Permitted(segs, |segs|, v).w :: FirstWritable(segs, v)
  {
    hide Inv, Permitted;
    HonestSeen(s, pool, a, e);
    forall v: nat | v in e.pages ensures v in e.region && (e.region[v].w <==> FirstWritable(segs, v)) {
      var i: nat :| i < |segs| && FirstTouch(segs, i, v) && e.region[v] == PteFlagsOf(segs[i].flags);
      forall j: nat | j < |segs| && FirstTouch(segs, j, v) ensures j == i {}
    }
  }

  /** The first segment that touches a page is writable. */
  ghost predicate FirstWritable(segs: seq<Segment>, v: nat) {
    exists i: nat :: i < |segs| && FirstTouch(segs, i, v) && PteFlagsOf(segs[i].flags).w
  }

  lemma HonestSeen(s: Sys, pool: set<Frame>, a: Id, e: EagerSpace)
    requires Inv(s, pool) && a in s.views && Sees(s, a, e)
    ensures e.pages.Keys <= e.region.Keys
    ensures Honest(s.views[a]) <==> forall v | v in e.pages :: e.pages[v].access.w ==> e.region[v].w
  {
    hide Inv;
    AllBacked(s, pool);
    var w := s.views[a];
    SeenEach(s.data, w);
    hide SeenPages;
    assert e.pages.Keys == w.pages.Keys;
    forall v | v in w.pages ensures e.pages[v].access.w <==> w.pages[v].flags.w || w.region[v].w {}
  }

  // ---- what the page tables cannot hold ----

  /** A segment that ends in the last page of the address space is accepted, but gets no pages. */
  lemma LastPageLost()
    ensures var s := Segment(true, 6, 0, U64_LIMIT - PAGE, 0, 8);
            Refusal(s, 0).None? && !Fits(s) && forall v: nat :: !Touches(s, v)
  {}

  /** A new page can be translated if and only if the segment permits anything. */
  lemma LeafExactly(m: Mem, g: Frame, flags: bv32, v: nat)
    ensures WalkEntry(m, NewLeaf(EMPTY, g, PteFlagsOf(flags)), 0, v).Some? <==> flags & 7 != 0
  {
    AnyRight(flags);
    hide PteFlagsOf;
  }

  lemma AnyRight(flags: bv32)
    ensures var f := PteFlagsOf(flags); f.r || f.w || f.x <==> flags & 7 != 0
  {
    assert flags & 7 == (flags & 4) | (flags & 2) | (flags & 1);
  }

  /** In a new space a page can be mapped if and only if it is not in a kernel gigapage. */
  lemma CoveredExactly(m: Mem, root: Frame, v: nat, n: nat)
    requires n == 2 && KernelTree(m, root, n, KERNEL_SLOTS)
    ensures Covered(m, root, n, v, 0) <==> Index(v, n) >= KERNEL_SLOT
  {
    hide Tree, Nodes, Users, Walk;
  }

  /** In every space the kernel gigapages are in the way. */
  lemma KernelInTheWay(m: Mem, owner: map<Frame, Owner>, a: Id, w: View, v: nat, n: nat)
    requires n == 2 && TreeOf(m, owner, a, w, n) && Index(v, n) >= KERNEL_SLOT
    ensures Covered(m, w.root, n, v, 0)
  {
    hide Tree, Nodes, Users, Walk;
  }

  lemma {:induction false} SameWalk(m: Mem, f: Frame, l: nat, u: nat, v: nat)
    requires l <= 2 && SamePath(u, v, 0, l)
    ensures Walk(m, f, l, u) == Walk(m, f, l, v)
    decreases l
  {
    if l > 0 && IsTable(m, f) {
      var p := m[f].ptes[Index(u, l)];
      if p.Pointer() { SameWalk(m, p.ppn, l - 1, u, v); }
    }
  }

  /** Two pages are translated alike in every memory if and only if they agree in their low 27 bits. */
  lemma AliasExactly(u: nat, v: nat, n: nat)
    requires n == 2
    ensures SamePath(u, v, 0, n) <==> u % PAGES == v % PAGES
    ensures u % PAGES == v % PAGES ==> forall m: Mem, root: Frame :: Walk(m, root, n, u) == Walk(m, root, n, v)
  {
    PageFields(u);
    PageFields(v);
    IndicesDetermine(u % PAGES, v % PAGES);
    assert SamePath(u, v, 0, n) <==> Index(u, n) == Index(v, n) && SamePath(u, v, 0, n - 1);
    assert SamePath(u, v, 0, n - 1) <==> Index(u, n - 1) == Index(v, n - 1) && SamePath(u, v, 0, n - 2);
    if SamePath(u, v, 0, n) {
      forall m: Mem, root: Frame ensures Walk(m, root, n, u) == Walk(m, root, n, v) { SameWalk(m, root, n, u, v); }
    }
  }

  /**
   The entry of page `v` after the first `n` segments, when `g` is the frame it is given: made by the first
   segment that touches it and widened by the others; widening an entry that is no leaf is a panic.
   */
  function EntryAfter(segs: seq<Segment>, n: nat, v: nat, g: Frame): Pte
    requires n <= |segs|
  {
    if n == 0 then EMPTY
    else
      var p := EntryAfter(segs, n - 1, v, g);
      if !Touches(segs[n - 1], v) then p
      else if !p.Valid() then NewLeaf(p, g, PteFlagsOf(segs[n - 1].flags))
      else if p.Leaf() then p.SetFlags(PteFlagsOf(segs[n - 1].flags).Or(VAD))
      else p
  }

  /** The first segment that touches the page permits something. */
  ghost predicate FirstPermits(segs: seq<Segment>, n: nat, v: nat)
    requires n <= |segs|
  {
    exists i: nat :: i < n && FirstTouch(segs, i, v) && segs[i].flags & 7 != 0
  }

  /** A page has a leaf if and only if the first segment that touches it permits something. */
  lemma {:induction false} FirstDecides(segs: seq<Segment>, n: nat, v: nat, g: Frame)
    requires n <= |segs|
    ensures EntryAfter(segs, n, v, g).Leaf() <==> FirstPermits(segs, n, v)
    ensures if Touched(segs, n, v) then EntryAfter(segs, n, v, g).Valid() else EntryAfter(segs, n, v, g) == EMPTY
    decreases n
  {
    hide Touches, PteFlagsOf, Touched, FirstPermits;
    NonePermits(segs, v);
    if n > 0 {
      FirstDecides(segs, n - 1, v, g);
      TouchedMore(segs, n - 1, v);
      PermitsMore(segs, n - 1, v);
      AnyRight(segs[n - 1].flags);
    }
  }

  lemma NonePermits(segs: seq<Segment>, v: nat)
    ensures !Touched(segs, 0, v) && !FirstPermits(segs, 0, v)
  {}

  lemma PermitsMore(segs: seq<Segment>, n: nat, v: nat)
    requires n < |segs|
    ensures FirstPermits(segs, n + 1, v) <==>
            FirstPermits(segs, n, v) || (!Touched(segs, n, v) && Touches(segs[n], v) && segs[n].flags & 7 != 0)
  {
    hide Touches;
    if Touches(segs[n], v) && !Touched(segs, n, v) { assert FirstTouch(segs, n, v); }
  }

  /** Every page of the segments gets a leaf, and no two pages the same one. */
  ghost predicate OwnLeaves(segs: seq<Segment>) {
    && (forall v: nat | Touched(segs, |segs|, v) :: Index(v, 2) < KERNEL_SLOT && EntryAfter(segs, |segs|, v, 0).Leaf())
    && NoAlias(segs)
  }

  ghost predicate NoAlias(segs: seq<Segment>) {
    forall u: nat, v: nat | Touched(segs, |segs|, u) && Touched(segs, |segs|, v) && u % PAGES == v % PAGES :: u == v
  }

  /**
   The pages of a list of segments get leaves of their own if and only if each lies below the kernel
   gigapages, is first touched by a segment that permits something, and has no alias.
   */
  lemma ListLeaves(segs: seq<Segment>)
    ensures OwnLeaves(segs) <==>
            && (forall v: nat | Touched(segs, |segs|, v) :: v % PAGES < KERNEL_SLOT * 0x4_0000 && FirstPermits(segs, |segs|, v))
            && NoAlias(segs)
  {
    hide Touched, Index, FirstPermits, EntryAfter;
    forall v: nat
      ensures Index(v, 2) < KERNEL_SLOT <==> v % PAGES < KERNEL_SLOT * 0x4_0000
      ensures EntryAfter(segs, |segs|, v, 0).Leaf() <==> FirstPermits(segs, |segs|, v)
    {
      SlotIs(v);
      FirstDecides(segs, |segs|, v, 0);
    }
  }

  /** Below the kernel gigapages, counted from the start of the segment. */
  predicate BelowKernel(from: nat, to: nat) {
    from % PAGES + (to - from) <= KERNEL_SLOT * 0x4_0000
  }

  lemma SlotIs(v: nat)
    ensures Index(v, 2) < KERNEL_SLOT <==> v % PAGES < KERNEL_SLOT * 0x4_0000
  {
    PageFields(v);
  }

  lemma RangeMod(from: nat, d: nat)
    requires from % PAGES + d < PAGES
    ensures (from + d) % PAGES == from % PAGES + d
  {}

  lemma OneTouched(s: Segment, v: nat)
    ensures Touched([s], 1, v) <==> Touches(s, v)
    ensures FirstPermits([s], 1, v) <==> Touches(s, v) && s.flags & 7 != 0
  {
    hide Touches;
    assert [s][0] == s;
    if Touches(s, v) { assert FirstTouch([s], 0, v); }
  }

  /** One segment's pages get leaves of their own if and only if it has none, or permits something and ends below the kernel gigapages. */
  lemma SegmentLeaves(s: Segment)
    requires s.load && EndOf(s).Some?
    ensures OwnLeaves([s]) <==>
            var from, to := s.vaddr / PAGE, EndOf(s).value / PAGE;
            to <= from || (s.flags & 7 != 0 && BelowKernel(from, to))
  {
    hide EndOf, Index, OwnLeaves, Touched, FirstPermits;
    var from, to := s.vaddr / PAGE, EndOf(s).value / PAGE;
    ListLeaves([s]);
    forall v: nat ensures Touched([s], 1, v) <==> from <= v < to { OneTouched(s, v); }
    if from < to && s.flags & 7 != 0 && BelowKernel(from, to) {
      forall v: nat | from <= v < to ensures v % PAGES == from % PAGES + (v - from) && FirstPermits([s], 1, v) {
        RangeMod(from, v - from);
        OneTouched(s, v);
      }
    } else if from < to {
      var k := KERNEL_SLOT * 0x4_0000;
      var v := if from % PAGES >= k || s.flags & 7 == 0 then from else from + (k - from % PAGES);
      if v != from { RangeMod(from, v - from); }
      OneTouched(s, v);
      assert Touched([s], 1, v);
    }
  }

  lemma LoadablePage(s: Segment, v: nat)
    requires s.load && Loadable(s) && Touches(s, v)
    ensures v < USER_PAGES && s.flags & 7 != 0
  {
    AnyRight(s.flags);
    LoadableFits(s);
  }

  /** Loadable segments get leaves of their own. */
  lemma LoadableLeaves(segs: seq<Segment>)
    requires forall i | 0 <= i < |segs| && segs[i].load :: Loadable(segs[i])
    ensures OwnLeaves(segs)
  {
    hide Index, Touches, Loadable, EndOf, OwnLeaves;
    forall i, v: nat | 0 <= i < |segs| && Touches(segs[i], v) ensures v < USER_PAGES && segs[i].flags & 7 != 0 {
      assert segs[i].load by { TouchesLoad(segs[i], v); }
      LoadablePage(segs[i], v);
    }
    forall v: nat | Touched(segs, |segs|, v) ensures v < USER_PAGES && FirstPermits(segs, |segs|, v) {
      var i := FirstToucher(segs, v, |segs|);
    }
    ListLeaves(segs);
  }

  lemma {:induction false} FirstToucher(segs: seq<Segment>, v: nat, n: nat) returns (i: nat)
    requires n <= |segs| && Touched(segs, n, v)
    ensures i < n && FirstTouch(segs, i, v)
    decreases n
  {
    hide Touches;
    TouchedMore(segs, n - 1, v);
    if Touched(segs, n - 1, v) {
      i := FirstToucher(segs, v, n - 1);
    } else {
      i := n - 1;
    }
  }

  lemma TouchesLoad(s: Segment, v: nat)
    requires Touches(s, v)
    ensures s.load
  {}

  /** A segment that permits nothing is accepted, and its page has no translation to copy through. */
  lemma NoRightsLost(m: Mem, g: Frame)
    ensures var s := Segment(true, 0, 0, PAGE, 8, 8);
            && Refusal(s, 8).None? && Fits(s) && Touches(s, 1) && !OwnLeaves([s])
            && WalkEntry(m, NewLeaf(EMPTY, g, PteFlagsOf(s.flags)), 0, 1) == None
  {
    var s := Segment(true, 0, 0, PAGE, 8, 8);
    AlignUpRounds(PAGE + 8);
    SegmentLeaves(s);
  }

  /** A segment in the kernel's direct mapping is accepted, and a gigapage is in the way of its page. */
  lemma KernelHalfLost(m: Mem, root: Frame, n: nat)
    requires n == 2 && KernelTree(m, root, n, KERNEL_SLOTS)
    ensures var s := Segment(true, 5, 0, DIRECT_MAPPING_BASE, 8, 8);
            && Refusal(s, 8).None? && Fits(s) && Touches(s, DIRECT_MAPPING_BASE / PAGE) && !OwnLeaves([s])
            && Covered(m, root, n, DIRECT_MAPPING_BASE / PAGE, 0)
  {
    var s := Segment(true, 5, 0, DIRECT_MAPPING_BASE, 8, 8);
    var v := DIRECT_MAPPING_BASE / PAGE;
    AlignUpRounds(DIRECT_MAPPING_BASE + 8);
    SegmentLeaves(s);
    SlotIs(v);
    CoveredExactly(m, root, v, n);
  }

  /** Two disjoint segments 2^39 bytes apart are accepted, and share their page. */
  lemma AliasLost(m: Mem, root: Frame, n: nat)
    requires n == 2
    ensures var s, t := Segment(true, 6, 0, PAGE, 8, 8), Segment(true, 6, 8, PAGE + PAGES * PAGE, 8, 8);
            && Refused([s, t], 2, 16).None? && Fits(s) && Fits(t) && ByteDisjoint([s, t]) && !OwnLeaves([s, t])
            && Touches(s, 1) && Touches(t, 1 + PAGES) && Walk(m, root, n, 1 + PAGES) == Walk(m, root, n, 1)
  {
    var s, t := Segment(true, 6, 0, PAGE, 8, 8), Segment(true, 6, 8, PAGE + PAGES * PAGE, 8, 8);
    var segs := [s, t];
    AlignUpRounds(PAGE + 8);
    AlignUpRounds(PAGE + PAGES * PAGE + 8);
    assert Refusal(s, 16) == None && Refusal(t, 16) == None;
    hide Refusal;
    assert Refused(segs, 0, 16) == None;
    assert Refused(segs, 1, 16) == Refusal(segs[0], 16);
    assert Refused(segs, 2, 16) == Refusal(segs[1], 16);
    assert Touches(segs[0], 1) && Touches(segs[1], 1 + PAGES);
    assert Touched(segs, 2, 1) && Touched(segs, 2, 1 + PAGES) && 1 % PAGES == (1 + PAGES) % PAGES;
    AliasExactly(1 + PAGES, 1, n);
  }
}
