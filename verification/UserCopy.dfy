/** Copying between the kernel and user memory (kernel/vm.c: walkaddr, copyout, copyin, copyinstr). */
module UserCopy {
  import opened Common
  import opened Sv39
  import opened PageTable
  import opened VirtualMemory

  function PageNo(a: nat): nat { a / PGSIZE }

  function Offset(a: nat): (o: nat)
    ensures o < PGSIZE
  {
    a % PGSIZE
  }

  /** walkaddr(): the frame behind page w, if user code may access it. */
  function Translate(ts: Tables, root: nat, w: nat): Option<nat>
  {
    if w < MAXVPN && Leaf(ts, root, w).v && Leaf(ts, root, w).perm.u then Some(Leaf(ts, root, w).ppn) else None
  }

  predicate Mapped(ts: Tables, root: nat, a: nat) { Translate(ts, root, PageNo(a)).Some? }

  /** User pages lie in memory, and no two of them share a frame. */
  ghost predicate UserOk(ts: Tables, pages: seq<PageBytes>, root: nat)
  {
    && (forall w :: Translate(ts, root, w).Some? ==> Translate(ts, root, w).value < |pages|)
    && (forall v, w :: Translate(ts, root, v).Some? && Translate(ts, root, w).Some? && v != w ==>
          Translate(ts, root, v) != Translate(ts, root, w))
  }

  /** The byte at user address a. */
  ghost function ByteAt(ts: Tables, pages: seq<PageBytes>, root: nat, a: nat): Byte
    requires UserOk(ts, pages, root) && Mapped(ts, root, a)
  {
    pages[Translate(ts, root, PageNo(a)).value][Offset(a)]
  }

  /** memmove() into a page. */
  function Patch(page: PageBytes, o: nat, s: seq<Byte>): (r: PageBytes)
    requires o + |s| <= PGSIZE
    ensures forall i :: 0 <= i < PGSIZE ==> r[i] == if o <= i < o + |s| then s[i - o] else page[i]
  {
    page[..o] + s + page[o + |s|..]
  }

  /** The first n bytes of src are at user addresses from va on, and nothing else changed: not any
      other user byte, and no frame outside the address space's user pages in that range. */
  ghost predicate Written(ts: Tables, pages0: seq<PageBytes>, pages1: seq<PageBytes>, root: nat, va: nat,
                          src: seq<Byte>, n: nat)
    requires UserOk(ts, pages0, root) && n <= |src|
  {
    && |pages1| == |pages0|
    && (forall a :: va <= a < va + n ==> Mapped(ts, root, a))
    && (forall a: nat :: Mapped(ts, root, a) ==>
          ByteAt(ts, pages1, root, a) == if va <= a < va + n then src[a - va] else ByteAt(ts, pages0, root, a))
    && (forall f :: 0 <= f < |pages0| ==>
          (forall a :: va <= a < va + n ==> Translate(ts, root, PageNo(a)) != Some(f)) ==> pages1[f] == pages0[f])
  }

  /** dst holds the bytes at user addresses from va on. */
  ghost predicate Fetched(ts: Tables, pages: seq<PageBytes>, root: nat, va: nat, dst: seq<Byte>)
    requires UserOk(ts, pages, root)
  {
    forall a :: va <= a < va + |dst| ==> Mapped(ts, root, a) && ByteAt(ts, pages, root, a) == dst[a - va]
  }

  /** Reading a range back right after it was written gives what was written. */
  lemma WriteThenRead(ts: Tables, pages0: seq<PageBytes>, pages1: seq<PageBytes>, root: nat, va: nat, src: seq<Byte>,
                      dst: seq<Byte>)
    requires UserOk(ts, pages0, root) && Written(ts, pages0, pages1, root, va, src, |src|)
    requires Fetched(ts, pages1, root, va, dst) && |dst| == |src|
    ensures dst == src
  {
    hide Translate, PageNo, Offset;
    forall i | 0 <= i < |src|
      ensures dst[i] == src[i]
    {
      assert Mapped(ts, root, va + i);
    }
  }

  lemma SamePage(a: nat, b: nat)
    requires PageNo(a) * PGSIZE <= b < PageNo(a) * PGSIZE + PGSIZE
    ensures PageNo(b) == PageNo(a) && Offset(b) == b - PageNo(a) * PGSIZE
  {
  }

  lemma Split(a: nat)
    ensures a == PageNo(a) * PGSIZE + Offset(a)
  {
  }

  /** One page's worth of bytes stored. */
  lemma PatchWrites(ts: Tables, pages0: seq<PageBytes>, pages1: seq<PageBytes>, pages2: seq<PageBytes>, root: nat,
                    va: nat, src: seq<Byte>, done: nat, n: nat)
    requires UserOk(ts, pages0, root) && done + n <= |src| && Written(ts, pages0, pages1, root, va, src, done)
    requires Mapped(ts, root, va + done) && Offset(va + done) + n <= PGSIZE
    requires var f := Translate(ts, root, PageNo(va + done)).value;
             f < |pages1| && pages2 == pages1[f := Patch(pages1[f], Offset(va + done), src[done..done + n])]
    ensures Written(ts, pages0, pages2, root, va, src, done + n)
  {
    hide Translate, PageNo, Offset;
    var w := PageNo(va + done);
    var f := Translate(ts, root, w).value;
    Split(va + done);
    forall a | va <= a < va + done + n
      ensures Mapped(ts, root, a)
    {
      if a >= va + done {
        SamePage(va + done, a);
      }
    }
    forall a: nat | Mapped(ts, root, a)
      ensures ByteAt(ts, pages2, root, a) == if va <= a < va + done + n then src[a - va]
              else ByteAt(ts, pages0, root, a)
    {
      Split(a);
      if va + done <= a < va + done + n {
        SamePage(va + done, a);
        assert src[done..done + n][a - va - done] == src[a - va];
      }
    }
    forall g | 0 <= g < |pages0| && (forall a :: va <= a < va + done + n ==> Translate(ts, root, PageNo(a)) != Some(g))
      ensures pages2[g] == pages0[g]
    {
      if n > 0 {
        assert Translate(ts, root, PageNo(va + done)) != Some(g);
      } else {
        assert Patch(pages1[f], Offset(va + done), src[done..done + n]) == pages1[f];
      }
    }
  }

  /** copyout(): src goes to user addresses from dstva on. It succeeds just if the whole range is
      mapped for the user; otherwise the pages before the first that is not have been written. */
  method CopyOut(m: Memory, root: nat, dstva: nat, src: seq<Byte>) returns (ok: bool, ghost done: nat)
    requires m.Valid() && UserOk(m.ts, m.pages, root)
    modifies m`pages
    ensures m.Valid() && UserOk(m.ts, m.pages, root)
    ensures done <= |src| && Written(m.ts, old(m.pages), m.pages, root, dstva, src, done)
    ensures ok <==> forall a :: dstva <= a < dstva + |src| ==> Mapped(m.ts, root, a)
    ensures if ok then done == |src|
            else done < |src| && !Mapped(m.ts, root, dstva + done) && (done == 0 || Offset(dstva + done) == 0)
  {
    hide Wf, FreeOk, Translate, PageNo, Offset;
    ghost var pages0 := m.pages;
    var va, at := dstva, 0;
    while at < |src|
      invariant 0 <= at <= |src| && va >= dstva + at && (at < |src| ==> va == dstva + at)
      invariant m.Valid() && UserOk(m.ts, m.pages, root)
      invariant 0 < at < |src| ==> Offset(va) == 0
      invariant Written(m.ts, pages0, m.pages, root, dstva, src, at)
    {
      var f := Translate(m.ts, root, PageNo(va));
      if f.None? {
        assert !Mapped(m.ts, root, dstva + at);
        return false, at;
      }
      var n := PGSIZE - Offset(va);
      if n > |src| - at {
        n := |src| - at;
      }
      ghost var pages1 := m.pages;
      m.pages := m.pages[f.value := Patch(m.pages[f.value], Offset(va), src[at..at + n])];
      PatchWrites(m.ts, pages0, pages1, m.pages, root, dstva, src, at, n);
      Split(va);
      NextPage(PageNo(va));
      at := at + n;
      va := PageNo(va) * PGSIZE + PGSIZE;
    }
    return true, at;
  }

  lemma NextPage(w: nat)
    ensures PageNo(w * PGSIZE + PGSIZE) == w + 1 && Offset(w * PGSIZE + PGSIZE) == 0
  {
  }

  /** copyin(): the bytes at user addresses from srcva on. It succeeds just if the whole range is
      mapped for the user. */
  method CopyIn(m: Memory, root: nat, srcva: nat, len: nat) returns (ok: bool, dst: seq<Byte>)
    requires m.Valid() && UserOk(m.ts, m.pages, root)
    ensures Fetched(m.ts, m.pages, root, srcva, dst) && |dst| <= len
    ensures ok <==> forall a :: srcva <= a < srcva + len ==> Mapped(m.ts, root, a)
    ensures if ok then |dst| == len else |dst| < len && !Mapped(m.ts, root, srcva + |dst|)
  {
    hide Wf, FreeOk, Translate, PageNo, Offset;
    var va := srcva;
    dst := [];
    while |dst| < len
      invariant |dst| <= len && va >= srcva + |dst| && (|dst| < len ==> va == srcva + |dst|)
      invariant Fetched(m.ts, m.pages, root, srcva, dst)
    {
      var f := Translate(m.ts, root, PageNo(va));
      if f.None? {
        assert !Mapped(m.ts, root, srcva + |dst|);
        return false, dst;
      }
      var n := PGSIZE - Offset(va);
      if n > len - |dst| {
        n := len - |dst|;
      }
      FetchMore(m.ts, m.pages, root, srcva, dst, n);
      Split(va);
      dst := dst + m.pages[f.value][Offset(va)..Offset(va) + n];
      va := PageNo(va) * PGSIZE + PGSIZE;
    }
    ok := true;
  }

  lemma FetchMore(ts: Tables, pages: seq<PageBytes>, root: nat, va: nat, dst: seq<Byte>, n: nat)
    requires UserOk(ts, pages, root) && Fetched(ts, pages, root, va, dst)
    requires Mapped(ts, root, va + |dst|) && Offset(va + |dst|) + n <= PGSIZE
    ensures var o := Offset(va + |dst|);
            Fetched(ts, pages, root, va, dst + pages[Translate(ts, root, PageNo(va + |dst|)).value][o..o + n])
  {
    hide Translate, PageNo, Offset;
    var o := Offset(va + |dst|);
    var page := pages[Translate(ts, root, PageNo(va + |dst|)).value];
    var dst' := dst + page[o..o + n];
    Split(va + |dst|);
    forall a | va <= a < va + |dst'|
      ensures Mapped(ts, root, a) && ByteAt(ts, pages, root, a) == dst'[a - va]
    {
      if a >= va + |dst| {
        SamePage(va + |dst|, a);
      }
    }
  }

  /** A user string of k bytes and its NUL starts at va. */
  ghost predicate StringAt(ts: Tables, pages: seq<PageBytes>, root: nat, va: nat, k: nat)
    requires UserOk(ts, pages, root)
  {
    && (forall a :: va <= a <= va + k ==> Mapped(ts, root, a))
    && (forall a :: va <= a < va + k ==> ByteAt(ts, pages, root, a) != 0)
    && ByteAt(ts, pages, root, va + k) == 0
  }

  /** copyinstr(): the string at srcva with its NUL. It succeeds just if there is one, of fewer than
      max bytes before the NUL, that reaches no page closed to the user. */
  method CopyInStr(m: Memory, root: nat, srcva: nat, max: nat) returns (ok: bool, dst: seq<Byte>)
    requires m.Valid() && UserOk(m.ts, m.pages, root)
    ensures Fetched(m.ts, m.pages, root, srcva, dst) && |dst| <= max
    ensures ok ==> dst != [] && StringAt(m.ts, m.pages, root, srcva, |dst| - 1)
    ensures ok <==> exists k :: 0 <= k < max && StringAt(m.ts, m.pages, root, srcva, k)
  {
    hide Wf, FreeOk, Translate, PageNo, Offset, ByteAt;
    var va := srcva;
    dst := [];
    while |dst| < max
      invariant |dst| <= max && va >= srcva + |dst| && (|dst| < max ==> va == srcva + |dst|)
      invariant Fetched(m.ts, m.pages, root, srcva, dst) && forall i :: 0 <= i < |dst| ==> dst[i] != 0
    {
      var f := Translate(m.ts, root, PageNo(va));
      if f.None? {
        assert !Mapped(m.ts, root, srcva + |dst|);
        return false, dst;
      }
      var n := PGSIZE - Offset(va);
      if n > max - |dst| {
        n := max - |dst|;
      }
      Split(va);
      var page, o, j := m.pages[f.value], Offset(va), 0;
      ghost var start := dst;
      while j < n
        invariant 0 <= j <= n && dst == start + page[o..o + j]
        invariant Fetched(m.ts, m.pages, root, srcva, dst) && forall i :: 0 <= i < |dst| ==> dst[i] != 0
      {
        FetchMore(m.ts, m.pages, root, srcva, start, j + 1);
        assert start + page[o..o + (j + 1)] == dst + [page[o + j]];
        dst := dst + [page[o + j]];
        if page[o + j] == 0 {
          assert StringAt(m.ts, m.pages, root, srcva, |dst| - 1);
          return true, dst;
        }
        j := j + 1;
      }
      va := PageNo(va) * PGSIZE + PGSIZE;
    }
    ok := false;
  }
}
