/** What a step of one process guarantees the others, and why that keeps everything they rely on. */
module DbFrame {
  import opened Links
  import opened Wrappers
  import opened DbCodec
  import opened DbImage
  import opened DbCatalog
  import opened DbProcess
  import opened DbProtocol

  // ----- what a process relies on -----

  ghost predicate ChainKept(img: Image, g: Ghost, img': Image, g': Ghost, key: string) {
    var h := Hash(key);
    && |g.cat.chains| == |g.cat.fix| == |g'.cat.chains| == |g'.cat.fix| == NHASH
    && g'.cat.fix[h] == g.cat.fix[h] && g'.cat.chains[h] == g.cat.chains[h]
    && (HeadOff(h) in img.ptr ==> HeadOff(h) in img'.ptr && img'.ptr[HeadOff(h)] == img.ptr[HeadOff(h)])
    && (forall o | o in g.cat.chains[h] && o in img.rec :: o in img'.rec && img'.rec[o] == img.rec[o])
    && (forall o | o in g.cat.own && g.cat.own[o] == Chain(h) :: o in g'.cat.own && g'.cat.own[o] == Chain(h))
    && (key in g'.cat.loc <==> key in g.cat.loc) && SameAt(g'.m, g.m, key)
  }

  ghost predicate FreeKept(img: Image, cat: Catalog, img': Image, cat': Catalog) {
    && cat'.free == cat.free
    && (FREE_OFF in img.ptr ==> FREE_OFF in img'.ptr && img'.ptr[FREE_OFF] == img.ptr[FREE_OFF])
    && (forall o | o in cat.free && o in img.rec :: o in img'.rec && img'.rec[o] == img.rec[o])
  }

  ghost predicate RecKept(img: Image, img': Image, o: nat) {
    && (o in img.ptr ==> o in img'.ptr && img'.ptr[o] == img.ptr[o])
    && (o in img.rec ==> o in img'.rec && img'.rec[o] == img.rec[o])
    && (o in img.rec && img.rec[o].datoff in img.dat ==>
          img.rec[o].datoff in img'.dat && img'.dat[img.rec[o].datoff] == img.dat[img.rec[o].datoff])
  }

  ghost predicate LooseKept(img: Image, cat: Catalog, img': Image, cat': Catalog, d: nat) {
    && (d in cat.ext ==> d in cat'.ext && cat'.ext[d] == cat.ext[d])
    && (d in img.dat ==> d in img'.dat && img'.dat[d] == img.dat[d])
  }

  /** Nothing goes away: cells and records stay, the end of the file stays a boundary. */
  ghost predicate Grows(img: Image, img': Image) {
    && (forall c | c in img.ptr :: c in img'.ptr)
    && (forall o | o in img.rec :: o in img'.rec)
    && (img'.iend == img.iend || img.iend in img'.rec)
  }

  ghost predicate NamedKept(img: Image, img': Image) {
    forall o | o in img.rec && !AllBlank(img.rec[o].key) :: o in img'.rec && img'.rec[o] == img.rec[o]
  }

  ghost predicate Rely(img: Image, g: Ghost, img': Image, g': Ghost, pc: Pc) {
    && |g'.cat.chains| == |g'.cat.fix| == NHASH
    && (InChain(pc) ==> ChainKept(img, g, img', g', pc.op.key))
    && (WritesFree(pc) ==> FreeKept(img, g.cat, img', g'.cat))
    && (InHand(pc).Some? ==> RecKept(img, img', InHand(pc).value))
    && (pc.Run? && (EndClaimOf(pc.at).LooseAt? || EndClaimOf(pc.at).LooseIdxEnd?) ==>
          LooseKept(img, g.cat, img', g'.cat, EndClaimOf(pc.at).d))
    && (LocksDat(pc) ==> img'.dend == img.dend)
    && (LocksIdx(pc) ==> img'.iend == img.iend)
    && (ReadsFree(pc) ==> NamedKept(img, img'))
    && Grows(img, img')
  }

  lemma ChainClaimKept(img: Image, g: Ghost, img': Image, g': Ghost, key: string, c: ChainClaim)
    requires ChainSays(img, g.cat, key, c) && |g'.cat.chains| == |g'.cat.fix| == NHASH && Grows(img, img')
    requires c != NoClaim ==> ChainKept(img, g, img', g', key)
    ensures ChainSays(img', g'.cat, key, c)
  {
    var h := Hash(key);
    hide Hash;
    match c {
      case NoClaim =>
      case Calm =>
      case AtWalk(prev, off) =>
        var s := g.cat.chains[h];
        var i :| 0 <= i <= |s| && prev == CellOf(HeadOff(h), s, i) && off == Nth(s, i)
                 && forall j | 0 <= j < i :: s[j] in img.rec && img.rec[s[j]].key != key;
        assert forall j | 0 <= j < i :: s[j] in img'.rec && img'.rec[s[j]].key != key;
      case OnRec(off, r) =>
      case Target(prev, off, r, nxt) =>
        assert off in g.cat.chains[h];
      case Owes(prev, nxt) =>
    }
  }

  lemma FreeClaimKept(img: Image, cat: Catalog, img': Image, cat': Catalog, op: Op, c: FreeClaim)
    requires FreeSays(img, cat, op, c) && (c != NoFree ==> FreeKept(img, cat, img', cat')) && Grows(img, img')
    ensures FreeSays(img', cat', op, c)
  {
    match c {
      case NoFree =>
      case FreeHeadIs(fr) =>
      case FreeWalk(prev, off) =>
      case FreeTarget(prev, off, r, nxt) =>
        assert off in cat.free;
    }
  }

  lemma HeldClaimKept(img: Image, img': Image, op: Op, c: HeldClaim)
    requires HeldSays(img, op, c) && (c != NoHeld ==> RecKept(img, img', c.off))
    requires c.HeldBlank? ==> FREE_OFF in img'.ptr && img'.ptr[FREE_OFF] == img.ptr[FREE_OFF]
    requires c.HeldReady? ==>
               HeadOff(Hash(op.key)) in img'.ptr && img'.ptr[HeadOff(Hash(op.key))] == img.ptr[HeadOff(Hash(op.key))]
    ensures HeldSays(img', op, c)
  {
    hide Hash, AllBlank;
  }

  lemma EndClaimKept(img: Image, cat: Catalog, img': Image, cat': Catalog, p: nat, op: Op, at: At, c: EndClaim)
    requires EndSays(img, cat, p, op, at, c)
    requires c.DatEnd? ==> img'.dend == img.dend
    requires c.LooseAt? || c.LooseIdxEnd? ==> LooseKept(img, cat, img', cat', c.d)
    requires c.LooseIdxEnd? ==> img'.iend == img.iend
    ensures EndSays(img', cat', p, op, at, c)
  {
    hide LengthOk;
  }

  lemma AbsentKept(img: Image, g: Ghost, img': Image, g': Ghost, op: Op, v: Option<nat>)
    requires AbsentSays(img, g.cat, g.m, op, v) && ChainKept(img, g, img', g', op.key)
    ensures AbsentSays(img', g'.cat, g'.m, op, v)
  {
    hide Hash;
  }

  /** What a process relies on is enough for everything it knows. */
  lemma LocalFrame(img: Image, g: Ghost, img': Image, g': Ghost, p: nat, pc: Pc)
    requires Local(img, g, p, pc) && Rely(img, g, img', g', pc)
    ensures Local(img', g', p, pc)
  {
    match pc {
      case Idle =>
      case Run(op, at) => RunFrame(img, g, img', g', p, op, at);
      case Scan(sc) =>
    }
  }

  lemma RunFrame(img: Image, g: Ghost, img': Image, g': Ghost, p: nat, op: Op, at: At)
    requires Local(img, g, p, Run(op, at)) && Rely(img, g, img', g', Run(op, at))
    ensures Local(img', g', p, Run(op, at))
  {
    ClaimsCovered(img, g, img', g', op, at);
    hide ChainSays, FreeSays, HeldSays, EndSays, AbsentSays, OpSays, Rely, Hash,
         ChainKept, FreeKept, RecKept, LooseKept, Grows, ChainClaimOf, HeldClaimOf, FreeClaimOf, EndClaimOf, Absent,
         HeadVal;
    ChainClaimKept(img, g, img', g', op.key, ChainClaimOf(at));
    FreeClaimKept(img, g.cat, img', g'.cat, op, FreeClaimOf(at));
    HeldClaimKept(img, img', op, HeldClaimOf(at));
    EndClaimKept(img, g.cat, img', g'.cat, p, op, at, EndClaimOf(at));
    if Absent(at) { AbsentKept(img, g, img', g', op, HeadVal(at)); }
  }

  /** Every claim made at a place is covered by the locks and hands the process has there. */
  lemma ClaimsCovered(img: Image, g: Ghost, img': Image, g': Ghost, op: Op, at: At)
    requires Rely(img, g, img', g', Run(op, at)) && HeldSays(img, op, HeldClaimOf(at))
    ensures |g'.cat.chains| == |g'.cat.fix| == NHASH && Grows(img, img')
    ensures ChainClaimOf(at) != NoClaim || Absent(at) ==> ChainKept(img, g, img', g', op.key)
    ensures FreeClaimOf(at) != NoFree ==> FreeKept(img, g.cat, img', g'.cat)
    ensures HeldClaimOf(at) != NoHeld ==> RecKept(img, img', HeldClaimOf(at).off)
    ensures HeldClaimOf(at).HeldBlank? ==>
              FREE_OFF in img'.ptr && FREE_OFF in img.ptr && img'.ptr[FREE_OFF] == img.ptr[FREE_OFF]
    ensures HeldClaimOf(at).HeldReady? ==>
              && HeadOff(Hash(op.key)) in img'.ptr && HeadOff(Hash(op.key)) in img.ptr
              && img'.ptr[HeadOff(Hash(op.key))] == img.ptr[HeadOff(Hash(op.key))]
    ensures EndClaimOf(at).DatEnd? ==> img'.dend == img.dend
    ensures EndClaimOf(at).LooseAt? || EndClaimOf(at).LooseIdxEnd? ==>
              LooseKept(img, g.cat, img', g'.cat, EndClaimOf(at).d)
    ensures EndClaimOf(at).LooseIdxEnd? ==> img'.iend == img.iend
  {
    hide Hash, RecKept, LooseKept, Grows, NamedKept;
  }

  // ----- what a step guarantees -----

  /** Chains p has not locked for writing: owed writes, order, head cell, records. */
  ghost predicate ChainsSpared(img: Image, cat: Catalog, img': Image, cat': Catalog, pc: Pc) {
    && |cat.chains| == |cat.fix| == |cat'.chains| == |cat'.fix| == NHASH
    && (forall h {:trigger cat'.chains[h]} {:trigger WritesChain(pc, h)} | 0 <= h < NHASH && !WritesChain(pc, h) ::
          && cat'.fix[h] == cat.fix[h] && cat'.chains[h] == cat.chains[h]
          && (HeadOff(h) in img.ptr ==> HeadOff(h) in img'.ptr && img'.ptr[HeadOff(h)] == img.ptr[HeadOff(h)]))
    && (forall o | o in cat.own && cat.own[o].Chain? && !WritesChain(pc, cat.own[o].h) ::
          && o in cat'.own && cat'.own[o] == cat.own[o]
          && (o in img.rec ==> o in img'.rec && img'.rec[o] == img.rec[o]))
  }

  ghost predicate HeldSpared(img: Image, cat: Catalog, img': Image, cat': Catalog, p: nat) {
    forall o | o in cat.own && cat.own[o].Held? && cat.own[o].p != p ::
      o in cat'.own && cat'.own[o] == cat.own[o] && RecKept(img, img', o)
  }

  ghost predicate LooseSpared(img: Image, cat: Catalog, img': Image, cat': Catalog, p: nat) {
    forall d | d in cat.ext && cat.ext[d].Loose? && cat.ext[d].p != p :: LooseKept(img, cat, img', cat', d)
  }

  ghost predicate KeysSpared(g: Ghost, g': Ghost, pc: Pc) {
    && (forall k {:trigger SameAt(g'.m, g.m, k)} | !(InChain(pc) && pc.op.key == k) ::
          (k in g'.cat.loc <==> k in g.cat.loc) && SameAt(g'.m, g.m, k))
    && (InChain(pc) && pc.op.Fetch? ==> g' == g)
  }

  /** A step of p (at pc) leaves alone whatever its locks and its hands do not cover. */
  ghost predicate Guar(img: Image, g: Ghost, img': Image, g': Ghost, p: nat, pc: Pc) {
    && ChainsSpared(img, g.cat, img', g'.cat, pc)
    && (!WritesFree(pc) ==> FreeKept(img, g.cat, img', g'.cat) && NamedKept(img, img'))
    && HeldSpared(img, g.cat, img', g'.cat, p)
    && LooseSpared(img, g.cat, img', g'.cat, p)
    && (!LocksDat(pc) ==> img'.dend == img.dend)
    && (!LocksIdx(pc) ==> img'.iend == img.iend)
    && Grows(img, img')
    && KeysSpared(g, g', pc)
  }

  /** Compatible locks turn what p guarantees into what q relies on. */
  lemma GuarGivesRely(img: Image, g: Ghost, img': Image, g': Ghost, p: nat, pc: Pc, q: nat, qc: Pc)
    requires CatInv(img, g.cat) && Guar(img, g, img', g', p, pc) && p != q && Compatible(pc, qc)
    requires Local(img, g, q, qc)
    requires InHand(qc).Some? ==> InHand(qc).value in g.cat.own && g.cat.own[InHand(qc).value] == Held(q)
    ensures Rely(img, g, img', g', qc)
  {
    hide Hash, Local, AllBlank, CatInv, InHand, EndClaimOf;
    if InChain(qc) {
      ChainGivesRely(img, g, img', g', pc, qc);
    }
    if qc.Run? && (EndClaimOf(qc.at).LooseAt? || EndClaimOf(qc.at).LooseIdxEnd?) {
      LooseOwner(img, g, q, qc);
    }
  }

  lemma LooseOwner(img: Image, g: Ghost, q: nat, qc: Pc)
    requires Local(img, g, q, qc) && qc.Run? && (EndClaimOf(qc.at).LooseAt? || EndClaimOf(qc.at).LooseIdxEnd?)
    ensures EndClaimOf(qc.at).d in g.cat.ext && g.cat.ext[EndClaimOf(qc.at).d] == Loose(q)
  {
  }

  lemma ChainGivesRely(img: Image, g: Ghost, img': Image, g': Ghost, pc: Pc, qc: Pc)
    requires CatInv(img, g.cat) && ChainsSpared(img, g.cat, img', g'.cat, pc) && KeysSpared(g, g', pc)
    requires Compatible(pc, qc) && InChain(qc)
    ensures ChainKept(img, g, img', g', qc.op.key)
  {
    hide ChainsSpared, Hash, CatInv, ChainKept;
    assert !WritesChain(pc, Hash(qc.op.key));
    if InChain(pc) && pc.op.key == qc.op.key { assert g' == g; }
    assert SameAt(g'.m, g.m, qc.op.key);
    SparedKept(img, g, img', g', pc, qc.op.key);
  }

  lemma SparedKept(img: Image, g: Ghost, img': Image, g': Ghost, pc: Pc, key: string)
    requires CatInv(img, g.cat) && ChainsSpared(img, g.cat, img', g'.cat, pc) && !WritesChain(pc, Hash(key))
    requires (key in g'.cat.loc <==> key in g.cat.loc) && SameAt(g'.m, g.m, key)
    ensures ChainKept(img, g, img', g', key)
  {
    ChainOwned(img, g.cat, Hash(key));
    hide CatInv, Hash, WritesChain;
  }

  lemma ChainOwned(img: Image, cat: Catalog, h: nat)
    requires CatInv(img, cat) && h < NHASH
    ensures |cat.chains| == |cat.fix| == NHASH
    ensures forall o | o in cat.chains[h] :: o in cat.own && cat.own[o] == Chain(h)
  {
  }
}
