/** What itrunc() of kernel/fs.c does to block ownership, step by step. */
module Truncate {
  import opened Blocks
  import opened RedoLog
  import opened BlockMap

  /** c is a block of the file: data, or its indirect block. */
  predicate OwnedIn(b: Image, ip: Inode, c: nat)
  {
    exists k :: 0 <= k < SLOTS && Addr(b, ip, k) == c != 0
  }

  function Cleared(n: seq<Inode>, i: nat, k: nat): seq<Inode>
    requires i < |n| && k <= NDIRECT
  {
    n[i := n[i].(addrs := n[i].addrs[k := 0])]
  }

  /** Clearing a slot (and with the indirect block's slot all its entries) keeps ownership, and
      what stood in the cleared slots is nobody's afterwards. */
  lemma ClearKeeps(sb: Super, b: Image, n: seq<Inode>, i: nat, k: nat)
    requires OwnOk(sb, b, n) && i < |n| && k <= NDIRECT
    ensures OwnOk(sb, b, Cleared(n, i, k))
    ensures forall l :: 0 <= l < SLOTS && (l == k || (k == NDIRECT && l > NDIRECT)) && Addr(b, n[i], l) != 0 ==>
              !Owned(b, Cleared(n, i, k), Addr(b, n[i], l))
  {
    hide Used, WordAt, SlotsDistinct, SlotsUsed;
    var n' := Cleared(n, i, k);
    forall j, l | 0 <= j < |n| && 0 <= l < SLOTS
      ensures Addr(b, n'[j], l) == if j == i && (l == k || (k == NDIRECT && l > NDIRECT)) then 0 else Addr(b, n[j], l)
    {
    }
    ClearedOwnership(sb, b, n, n', i, k);
  }

  lemma ClearedOwnership(sb: Super, b: Image, n: seq<Inode>, n': seq<Inode>, i: nat, k: nat)
    requires OwnOk(sb, b, n) && i < |n| == |n'| && k <= NDIRECT
    requires forall j, l :: 0 <= j < |n| && 0 <= l < SLOTS ==>
      Addr(b, n'[j], l) == if j == i && (l == k || (k == NDIRECT && l > NDIRECT)) then 0 else Addr(b, n[j], l)
    ensures OwnOk(sb, b, n')
    ensures forall l :: 0 <= l < SLOTS && (l == k || (k == NDIRECT && l > NDIRECT)) && Addr(b, n[i], l) != 0 ==>
              !Owned(b, n', Addr(b, n[i], l))
  {
  }

  // ---- the direct blocks ----

  /** itrunc() has freed what stood in the first m slots of inode i, and cleared those slots. */
  predicate Freed(sb: Super, b0: Image, n0: seq<Inode>, b: Image, n: seq<Inode>, i: nat, m: nat)
  {
    && |b| == |b0| && i < |n0| && m <= NDIRECT
    && |n| == |n0| && n == n0[i := n0[i].(addrs := n[i].addrs)]
    && (forall k :: 0 <= k <= NDIRECT ==> n[i].addrs[k] == if k < m then 0 else n0[i].addrs[k])
    && FreedBits(sb, b0, b, n0[i].addrs[..m])
  }

  /** Exactly the blocks in gone have become free, and no data block has changed. */
  predicate FreedBits(sb: Super, b0: Image, b: Image, gone: seq<Word>)
  {
    && |b| == |b0|
    && (forall c :: sb.DataStart() <= c < sb.size && c < |b| ==> b[c] == b0[c])
    && (forall c :: 0 <= c < sb.size ==> Used(sb, b, c) == (Used(sb, b0, c) && !(c != 0 && c in gone)))
  }

  lemma FreedNothing(sb: Super, b0: Image, n0: seq<Inode>, i: nat)
    requires i < |n0|
    ensures Freed(sb, b0, n0, b0, n0, i, 0)
  {
  }

  /** bfree() of one more block. */
  lemma BitsStep(sb: Super, b0: Image, b: Image, gone: seq<Word>, a: Word)
    requires LayoutOk(sb, b) && FreedBits(sb, b0, b, gone) && (a != 0 ==> a < sb.size)
    ensures FreedBits(sb, b0, if a == 0 then b else Mark(sb, b, a, false), gone + [a])
  {
    hide Used, Mark;
    if a != 0 {
      forall c | 0 <= c < sb.size
        ensures Used(sb, Mark(sb, b, a, false), c) == (c != a && Used(sb, b, c))
        ensures sb.DataStart() <= c ==> Mark(sb, b, a, false)[c] == b[c]
      {
        MarkReads(sb, b, a, false, c);
        if sb.DataStart() <= c {
          MarkKeepsData(sb, b, a, false, c);
        }
      }
    }
  }

  lemma FreedStep(sb: Super, b0: Image, n0: seq<Inode>, b: Image, n: seq<Inode>, i: nat, m: nat)
    requires OwnOk(sb, b, n) && Freed(sb, b0, n0, b, n, i, m) && m < NDIRECT
    ensures var a := n[i].addrs[m];
            && (a == 0 ==> Freed(sb, b0, n0, b, n, i, m + 1))
            && (a != 0 ==> a < sb.size && Used(sb, b, a) && OwnOk(sb, Mark(sb, b, a, false), Cleared(n, i, m))
                           && Freed(sb, b0, n0, Mark(sb, b, a, false), Cleared(n, i, m), i, m + 1))
  {
    hide Used, Mark, SlotsDistinct, MetaUsed, Owned;
    var a := n[i].addrs[m];
    assert Addr(b, n[i], m) == a;
    assert n0[i].addrs[..m + 1] == n0[i].addrs[..m] + [a];
    BitsStep(sb, b0, b, n0[i].addrs[..m], a);
    if a != 0 {
      ClearKeeps(sb, b, n, i, m);
      UnmarkKeeps(sb, b, Cleared(n, i, m), a);
    }
  }

  // ---- the indirect block ----

  function Entries(b: Block): (es: seq<Word>)
    ensures |es| == NINDIRECT && forall j :: 0 <= j < NINDIRECT ==> es[j] == WordAt(b, j)
  {
    seq<Word>(NINDIRECT, j requires 0 <= j < NINDIRECT => WordAt(b, j))
  }

  /** The entries of inode i's indirect block, and the block itself, are used, distinct, and
      nobody's once the indirect slot is cleared. */
  predicate Loose(sb: Super, b: Image, g: seq<Inode>, es: seq<Word>)
  {
    && (forall j :: 0 <= j < |es| && es[j] != 0 ==> InData(sb, b, es[j]) && !Owned(b, g, es[j]))
    && (forall j, l :: 0 <= j < l < |es| && es[j] != 0 ==> es[j] != es[l])
  }

  lemma EntriesLoose(sb: Super, b: Image, n: seq<Inode>, i: nat)
    requires OwnOk(sb, b, n) && i < |n| && n[i].addrs[NDIRECT] != 0
    ensures n[i].addrs[NDIRECT] < |b| && OwnOk(sb, b, Cleared(n, i, NDIRECT))
    ensures Loose(sb, b, Cleared(n, i, NDIRECT), Entries(b[n[i].addrs[NDIRECT]]) + [n[i].addrs[NDIRECT]])
  {
    hide Used, WordAt, MetaUsed, Owned;
    var ind := n[i].addrs[NDIRECT];
    assert Addr(b, n[i], NDIRECT) == ind;
    ClearKeeps(sb, b, n, i, NDIRECT);
    var es := Entries(b[ind]);
    assert forall j :: 0 <= j < NINDIRECT ==> es[j] == Addr(b, n[i], NDIRECT + 1 + j);
    var all := es + [ind];
    forall j, l | 0 <= j < l < |all| && all[j] != 0
      ensures all[j] != all[l]
    {
      var k1 := NDIRECT + 1 + j;
      var k2 := if l < |es| then NDIRECT + 1 + l else NDIRECT;
      assert Addr(b, n[i], k1) == all[j] && Addr(b, n[i], k2) == all[l];
    }
    forall j | 0 <= j < |all| && all[j] != 0
      ensures InData(sb, b, all[j]) && !Owned(b, Cleared(n, i, NDIRECT), all[j])
    {
      var k1 := if j < |es| then NDIRECT + 1 + j else NDIRECT;
      assert Addr(b, n[i], k1) == all[j];
    }
  }

  /** The first m of the loose blocks es have been freed. */
  predicate LooseFreed(sb: Super, b1: Image, g: seq<Inode>, b: Image, es: seq<Word>, m: nat)
  {
    && m <= |es| && OwnOk(sb, b, g) && SameAddrs(b1, b, g) && FreedBits(sb, b1, b, es[..m])
  }

  lemma LooseStart(sb: Super, b1: Image, g: seq<Inode>, es: seq<Word>)
    requires OwnOk(sb, b1, g)
    ensures LooseFreed(sb, b1, g, b1, es, 0)
  {
  }

  lemma LooseStep(sb: Super, b1: Image, g: seq<Inode>, b: Image, es: seq<Word>, m: nat)
    requires LooseFreed(sb, b1, g, b, es, m) && m < |es| && Loose(sb, b1, g, es)
    ensures es[m] == 0 ==> LooseFreed(sb, b1, g, b, es, m + 1)
    ensures es[m] != 0 ==> es[m] < sb.size && Used(sb, b, es[m])
                           && LooseFreed(sb, b1, g, Mark(sb, b, es[m], false), es, m + 1)
  {
    hide Used, Mark, SlotsDistinct, MetaUsed, SlotsUsed, Addr;
    var a := es[m];
    assert es[..m + 1] == es[..m] + [a];
    BitsStep(sb, b1, b, es[..m], a);
    if a != 0 {
      assert !Owned(b, g, a);
      UnmarkKeeps(sb, b, g, a);
    }
  }

  // ---- both together ----

  /** The blocks freed by the two phases are those of the file. */
  lemma TruncBits(sb: Super, b0: Image, n0: seq<Inode>, b1: Image, n1: seq<Inode>, b2: Image, i: nat)
    requires OwnOk(sb, b0, n0) && Freed(sb, b0, n0, b1, n1, i, NDIRECT)
    requires var ind := n0[i].addrs[NDIRECT];
             if ind == 0 then b2 == b1
             else ind < |b1| && FreedBits(sb, b1, b2, Entries(b1[ind]) + [ind])
    ensures |b2| == |b0|
    ensures forall c :: sb.DataStart() <= c < sb.size ==> b2[c] == b0[c]
    ensures forall c :: 0 <= c < sb.size ==> Used(sb, b2, c) == (Used(sb, b0, c) && !OwnedIn(b0, n0[i], c))
  {
    hide Used, WordAt, SlotsDistinct, MetaUsed;
    var ip, ind := n0[i], n0[i].addrs[NDIRECT];
    if ind != 0 {
      IndirectIsData(sb, b0, n0, i);
    }
    forall c | 0 < c < sb.size
      ensures OwnedIn(b0, ip, c) <==>
                c in ip.addrs[..NDIRECT] || (ind != 0 && c in Entries(b1[ind]) + [ind])
    {
      OwnedSplits(b0, ip, c);
    }
  }

  lemma OwnedSplits(b: Image, ip: Inode, c: nat)
    requires 0 < c && ip.addrs[NDIRECT] < |b|
    ensures OwnedIn(b, ip, c) <==>
              c in ip.addrs[..NDIRECT] ||
              (ip.addrs[NDIRECT] != 0 && c in Entries(b[ip.addrs[NDIRECT]]) + [ip.addrs[NDIRECT]])
  {
    hide WordAt;
    var ind := ip.addrs[NDIRECT];
    if c in ip.addrs[..NDIRECT] {
      var k :| 0 <= k < NDIRECT && ip.addrs[k] == c;
      assert Addr(b, ip, k) == c;
    }
    if ind != 0 {
      var es := Entries(b[ind]);
      if c in es {
        var j :| 0 <= j < NINDIRECT && es[j] == c;
        assert Addr(b, ip, NDIRECT + 1 + j) == c;
      }
      assert Addr(b, ip, NDIRECT) == ind;
    }
    if OwnedIn(b, ip, c) {
      var k :| 0 <= k < SLOTS && Addr(b, ip, k) == c;
      if k < NDIRECT {
        assert ip.addrs[..NDIRECT][k] == c;
      } else if k > NDIRECT {
        assert Entries(b[ind])[k - NDIRECT - 1] == c;
      }
    }
  }
}
