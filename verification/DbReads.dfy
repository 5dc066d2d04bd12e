/** The steps that only read, or take and drop locks. */
module DbReads {
  import opened Links
  import opened Wrappers
  import opened DbCodec
  import opened DbImage
  import opened DbCatalog
  import opened DbProcess
  import opened DbProtocol
  import opened DbFrame

  /** Places whose next step writes nothing and ends no operation halfway. */
  predicate Quiet(img: Image, op: Op, at: At) {
    && !(at.BlankData? || at.BlankIdx? || at.SetFree? || at.Unlink? || at.TakeFree? || at.ReuseData? || at.ReuseIdx?
         || at.WriteDat? || at.WriteIdx? || at.LinkHead? || at.Overwrite?)
    && (at.UnlockDat? ==> Next(img, op, at).LockIdx?)
  }

  /** While a process holds its chain and has not begun to replace its record, the files and the
      abstract map agree on its key. */
  lemma KeySettled(s: State, g: Ghost, p: nat)
    requires Inv(s, g) && p < |s.procs| && InChain(s.procs[p]) && !Gap(s.procs[p], s.procs[p].op.key)
    ensures SameAt(MapOf(s.img, g.cat), g.m, s.procs[p].op.key)
  {
    hide CatInv, Geometry, HeldOk, FixOk, MapOf, Locals, Hash, Absent;
    var k := s.procs[p].op.key;
    forall q | 0 <= q < |s.procs| ensures !Gap(s.procs[q], k) {
      assert q != p ==> Compatible(s.procs[p], s.procs[q]);
      if Gap(s.procs[q], k) { GapHolds(s.procs[q], k); }
    }
  }

  lemma GapHolds(pc: Pc, k: string)
    requires Gap(pc, k)
    ensures InChain(pc) && pc.op.key == k && !pc.op.Fetch?
  {
  }

  /** A chain no one else has locked is owed nothing. */
  lemma NothingOwed(s: State, g: Ghost, p: nat, op: Op)
    requires Inv(s, g) && p < |s.procs| && s.procs[p] == Run(op, LockChain)
    requires CompatibleWithOthers(s.procs, p, Run(op, ReadHead))
    ensures |g.cat.fix| == NHASH && g.cat.fix[Hash(op.key)] == None
  {
    hide CatInv, Geometry, HeldOk, MapOf, MapOk, Locals, Hash;
    var h := Hash(op.key);
    forall q | 0 <= q < |s.procs| ensures !(OwesFix(s.procs[q]) && WritesChain(s.procs[q], h)) {
      assert q != p ==> Compatible(Run(op, ReadHead), s.procs[q]);
    }
  }

  // ----- walking the chain -----

  lemma ReadHeadLocal(img: Image, g: Ghost, p: nat, op: Op)
    requires Local(img, g, p, Run(op, ReadHead)) && CatInv(img, g.cat)
    ensures Next(img, op, ReadHead).Walk? && Local(img, g, p, Run(op, Next(img, op, ReadHead)))
  {
    var h := Hash(op.key);
    assert g.cat.fix[h] == None;
    ChainCell(img, g.cat, h, 0);
    var s := g.cat.chains[h];
    assert CellOf(HeadOff(h), s, 0) == HeadOff(h);
    hide CatInv, Hash;
    assert WalkOk(img.rec, HeadOff(h), s, op.key, HeadOff(h), img.ptr[HeadOff(h)]);
  }

  /** The record a walk has reached: on the chain, readable, and what comes after it. */
  lemma WalkReached(img: Image, g: Ghost, op: Op, prev: nat, off: nat)
    requires CatInv(img, g.cat) && ChainSays(img, g.cat, op.key, AtWalk(prev, off)) && off != 0
    ensures var s := g.cat.chains[Hash(op.key)];
            && off in img.rec && off in img.ptr && off in s
            && PlaceOk(HeadOff(Hash(op.key)), s, prev, off, img.ptr[off])
            && (img.rec[off].key != op.key ==> WalkOk(img.rec, HeadOff(Hash(op.key)), s, op.key, off, img.ptr[off]))
  {
    hide Hash, CatInv, WalkOk, PlaceOk;
    WalkPlace(img, g.cat, Hash(op.key), op.key, prev, off);
  }

  lemma WalkPlace(img: Image, cat: Catalog, h: nat, key: string, prev: nat, off: nat)
    requires CatInv(img, cat) && h < NHASH && |cat.chains| == |cat.fix| == NHASH && cat.fix[h] == None && off != 0
    requires WalkOk(img.rec, HeadOff(h), cat.chains[h], key, prev, off)
    ensures off in img.rec && off in img.ptr && off in cat.chains[h]
    ensures PlaceOk(HeadOff(h), cat.chains[h], prev, off, img.ptr[off])
    ensures img.rec[off].key != key ==> WalkOk(img.rec, HeadOff(h), cat.chains[h], key, off, img.ptr[off])
  {
    hide CatInv;
    var s := cat.chains[h];
    var i :| 0 <= i <= |s| && prev == CellOf(HeadOff(h), s, i) && off == Nth(s, i)
             && forall j | 0 <= j < i :: s[j] in img.rec && img.rec[s[j]].key != key;
    ChainElem(img, cat, h, i);
    ChainCell(img, cat, h, i + 1);
    assert CellOf(HeadOff(h), s, i + 1) == off;
    assert forall j | 0 <= j < i + 1 && s[i] == off && img.rec[off].key != key ::
          s[j] in img.rec && img.rec[s[j]].key != key;
  }

  lemma OnItsChain(img: Image, cat: Catalog, key: string)
    requires CatInv(img, cat) && key in cat.loc
    ensures |cat.chains| == NHASH && cat.loc[key] in cat.chains[Hash(key)]
    ensures cat.loc[key] in img.rec && img.rec[cat.loc[key]].key == key
  {
    hide CatInv, Hash;
    var i := ChainHas(img, cat, key);
  }

  /** A walk that has run off the chain has seen every key on it. */
  lemma WalkExhausted(img: Image, g: Ghost, op: Op, prev: nat)
    requires CatInv(img, g.cat) && ChainSays(img, g.cat, op.key, AtWalk(prev, 0))
    ensures op.key !in g.cat.loc
  {
    var h := Hash(op.key);
    var s := g.cat.chains[h];
    hide Hash;
    var i :| 0 <= i <= |s| && prev == CellOf(HeadOff(h), s, i) && 0 == Nth(s, i)
             && forall j | 0 <= j < i :: s[j] in img.rec && img.rec[s[j]].key != op.key;
    if i < |s| { ChainElem(img, g.cat, h, i); }
    if op.key in g.cat.loc { OnItsChain(img, g.cat, op.key); }
  }

  lemma WalkLocal(img: Image, g: Ghost, p: nat, op: Op, prev: nat, off: nat)
    requires Local(img, g, p, Run(op, Walk(prev, off))) && CatInv(img, g.cat)
    requires SameAt(MapOf(img, g.cat), g.m, op.key)
    ensures !Next(img, op, Walk(prev, off)).Halted?
    ensures Local(img, g, p, Run(op, Next(img, op, Walk(prev, off))))
  {
    hide Hash, MapOf, CatInv, PlaceOk, WalkOk;
    if off == 0 {
      MissLocal(img, g, p, op, prev);
    } else {
      WalkReached(img, g, op, prev, off);
      if img.rec[off].key == op.key {
        MatchLocal(img, g, p, op, prev, off);
      } else {
        assert Next(img, op, Walk(prev, off)) == Walk(off, img.ptr[off]);
      }
    }
  }

  lemma MissLocal(img: Image, g: Ghost, p: nat, op: Op, prev: nat)
    requires OpOk(op) && SizesOk(op) && ChainSays(img, g.cat, op.key, AtWalk(prev, 0)) && CatInv(img, g.cat)
    requires SameAt(MapOf(img, g.cat), g.m, op.key)
    ensures op.key !in MapOf(img, g.cat) && !OnMiss(op).Halted? && Local(img, g, p, Run(op, OnMiss(op)))
  {
    hide Hash, MapOf, CatInv, WalkOk, CleanKey;
    WalkExhausted(img, g, op, prev);
    MissedKey(img, g.cat, op.key);
  }

  lemma MissedKey(img: Image, cat: Catalog, key: string)
    requires CatInv(img, cat) && key !in cat.loc
    ensures key !in MapOf(img, cat)
  {
    hide CatInv;
  }

  lemma MatchLocal(img: Image, g: Ghost, p: nat, op: Op, prev: nat, off: nat)
    requires OpOk(op) && SizesOk(op) && |g.cat.chains| == |g.cat.fix| == NHASH && g.cat.fix[Hash(op.key)] == None
    requires off in img.rec && off in img.ptr && off in g.cat.chains[Hash(op.key)] && img.rec[off].key == op.key
    requires PlaceOk(HeadOff(Hash(op.key)), g.cat.chains[Hash(op.key)], prev, off, img.ptr[off])
    ensures var at := OnMatch(op, prev, off, img.rec[off], img.ptr[off]);
            !at.Halted? && Local(img, g, p, Run(op, at))
  {
    hide Hash, PlaceOk;
  }

  /** The data a fetch reads is that of its key. */
  lemma FoundData(img: Image, g: Ghost, key: string, off: nat, r: Rec)
    requires CatInv(img, g.cat) && ChainSays(img, g.cat, key, OnRec(off, r))
    ensures r.datoff in img.dat && |img.dat[r.datoff]| + 1 == r.datlen
    ensures off in g.cat.own && g.cat.own[off] == Chain(Hash(key))
    ensures key in g.cat.loc && key in MapOf(img, g.cat) && MapOf(img, g.cat)[key] == img.dat[r.datoff]
  {
    ChainOwned(img, g.cat, Hash(key));
    RecExtent(img, g.cat, off);
    assert g.cat.own[off].Chain?;
    hide Hash;
    LiveKeys(img, g.cat);
  }

  lemma ReadDataLocal(img: Image, g: Ghost, p: nat, op: Op, off: nat, r: Rec)
    requires Local(img, g, p, Run(op, ReadData(off, r))) && CatInv(img, g.cat)
    ensures !Next(img, op, ReadData(off, r)).Halted?
    ensures Local(img, g, p, Run(op, Next(img, op, ReadData(off, r))))
  {
    hide Hash, CatInv, MapOf;
    FoundData(img, g, op.key, off, r);
    assert Next(img, op, ReadData(off, r)) == UnlockChain(Hit(img.dat[r.datoff]));
  }

  // ----- the free list, the head pointer -----

  lemma FreeReached(img: Image, g: Ghost, prev: nat, off: nat)
    requires CatInv(img, g.cat) && Cells(img) && off != 0
    requires exists i :: 0 <= i <= |g.cat.free| && prev == CellOf(FREE_OFF, g.cat.free, i) && off == Nth(g.cat.free, i)
    ensures off in img.rec && off in img.ptr && off <= PTR_MAX && img.ptr[off] <= PTR_MAX && prev in img.ptr
    ensures AllBlank(img.rec[off].key)
    ensures PlaceOk(FREE_OFF, g.cat.free, prev, off, img.ptr[off])
    ensures exists i ::
              0 <= i <= |g.cat.free| && off == CellOf(FREE_OFF, g.cat.free, i) && img.ptr[off] == Nth(g.cat.free, i)
  {
    var s := g.cat.free;
    var i :| 0 <= i <= |s| && prev == CellOf(FREE_OFF, s, i) && off == Nth(s, i);
    FreeElem(img, g.cat, i);
    FreeCell(img, g.cat, i);
    FreeCell(img, g.cat, i + 1);
    assert off == CellOf(FREE_OFF, s, i + 1) && img.ptr[off] == Nth(s, i + 1);
  }

  lemma WalkFreeLocal(img: Image, g: Ghost, p: nat, op: Op, v: nat, prev: nat, off: nat)
    requires Local(img, g, p, Run(op, WalkFree(v, prev, off))) && CatInv(img, g.cat) && Cells(img)
    ensures !Next(img, op, WalkFree(v, prev, off)).Halted?
    ensures Local(img, g, p, Run(op, Next(img, op, WalkFree(v, prev, off))))
  {
    hide CatInv, Hash, Cells, PlaceOk, AllBlank, AbsentSays;
    var at := Next(img, op, WalkFree(v, prev, off));
    if off == 0 {
      assert at == UnlockFree(v, None);
    } else {
      FreeReached(img, g, prev, off);
      var r := img.rec[off];
      if |r.key| == |op.key| && r.datlen == |op.data| + 1 {
        assert at == TakeFree(v, prev, off, r, img.ptr[off]);
        assert Fits(op, r);
      } else {
        assert at == WalkFree(v, off, img.ptr[off]);
      }
    }
  }

  lemma ReadFreeHeadLocal(img: Image, g: Ghost, p: nat, op: Op, v: nat)
    requires Local(img, g, p, Run(op, ReadFreeHead(v))) && CatInv(img, g.cat)
    ensures !Next(img, op, ReadFreeHead(v)).Halted?
    ensures Local(img, g, p, Run(op, Next(img, op, ReadFreeHead(v))))
  {
    FreeCell(img, g.cat, 0);
    assert FREE_OFF == CellOf(FREE_OFF, g.cat.free, 0);
    hide CatInv, Hash, AbsentSays;
  }

  lemma HeadRead(img: Image, g: Ghost, h: nat)
    requires CatInv(img, g.cat) && Cells(img) && h < NHASH && |g.cat.fix| == NHASH && g.cat.fix[h] == None
    ensures HeadOff(h) in img.ptr && img.ptr[HeadOff(h)] <= PTR_MAX
  {
    ChainCell(img, g.cat, h, 0);
  }

  lemma PtrValLocal(img: Image, g: Ghost, p: nat, op: Op, at: At)
    requires at == ReadPtrVal || at == RereadPtrVal
    requires Local(img, g, p, Run(op, at)) && CatInv(img, g.cat) && Cells(img)
    ensures !Next(img, op, at).Halted?
    ensures Local(img, g, p, Run(op, Next(img, op, at)))
  {
    HeadRead(img, g, Hash(op.key));
    hide CatInv, Hash, Cells;
  }

  lemma ReadFreeLocal(img: Image, g: Ghost, p: nat, op: Op, at: At)
    requires at.ReadFree? && Local(img, g, p, Run(op, at)) && CatInv(img, g.cat)
    ensures !Next(img, op, at).Halted?
    ensures Local(img, g, p, Run(op, Next(img, op, at)))
  {
    FreeCell(img, g.cat, 0);
    hide CatInv, Hash, AbsentSays, AllBlank, CellOn;
  }

  /** Locks and seeks carry everything over. */
  lemma LockLocal(img: Image, g: Ghost, p: nat, op: Op, at: At)
    requires at.LockFreeDel? || at.LockFree? || at.LockDat? || at.SeekDat? || at.LockIdx? || at.SeekIdx?
             || at.UnlockIdx?
             || at.UnlockFree? || at.UnlockFreeDel? || at.UnlockChain? || at.Returning? || at.UnlockDat?
    requires Local(img, g, p, Run(op, at)) && Quiet(img, op, at)
    ensures Local(img, g, p, Run(op, Next(img, op, at)))
  {
    hide Hash, AllBlank, CellOn, PlaceOk, BodyLen;
  }

  lemma BeginLocal(img: Image, g: Ghost, p: nat, op: Op)
    requires Local(img, g, p, Run(op, Begin))
    ensures Local(img, g, p, Run(op, Next(img, op, Begin)))
  {
    hide Hash;
  }

  lemma LockChainLocal(img: Image, g: Ghost, p: nat, op: Op)
    requires Local(img, g, p, Run(op, LockChain)) && |g.cat.fix| == NHASH && g.cat.fix[Hash(op.key)] == None
    ensures Local(img, g, p, Run(op, Next(img, op, LockChain)))
  {
    hide Hash;
  }
}
