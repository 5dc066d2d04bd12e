/** One step, assembled from what it does to each part of the invariant. */
module DbSteps {
  import opened Wrappers
  import opened DbCodec
  import opened DbImage
  import opened DbCatalog
  import opened DbProcess
  import opened DbProtocol
  import opened DbFrame

  /** Only p's hands change, and p says what they hold now. */
  ghost predicate HeldStep(own: map<nat, Owner>, own': map<nat, Owner>, p: nat, pc': Pc) {
    && (forall o | o in own' && own'[o].Held? ::
          if own'[o].p == p then InHand(pc') == Some(o) else o in own && own[o] == own'[o])
    && (forall o | o in own && own[o].Held? && own[o].p != p :: o in own' && own'[o] == own[o])
    && (InHand(pc').Some? ==> InHand(pc').value in own' && own'[InHand(pc').value] == Held(p))
  }

  /** A write owed to a chain p may change is owed by p. */
  ghost predicate FixStep(fix: seq<Option<(nat, nat)>>, fix': seq<Option<(nat, nat)>>, pc: Pc, pc': Pc) {
    && |fix| == |fix'| == NHASH
    && forall h | 0 <= h < NHASH && fix'[h] != None ::
         if WritesChain(pc, h) then OwesFix(pc') && WritesChain(pc', h) else fix[h] == fix'[h]
  }

  /** Each key is untouched, or settled now, or in p's gap. */
  ghost predicate MapStep(cur: map<string, string>, m: map<string, string>,
                          cur': map<string, string>, m': map<string, string>, pc: Pc, pc': Pc) {
    forall k {:trigger SameAt(cur', m', k)} ::
      Gap(pc', k) || SameAt(cur', m', k) || (SameAt(cur', cur, k) && SameAt(m', m, k) && !Gap(pc, k))
  }

  lemma HeldOkStep(own: map<nat, Owner>, own': map<nat, Owner>, procs: seq<Pc>, p: nat, pc': Pc)
    requires p < |procs| && HeldOk(own, procs) && HeldStep(own, own', p, pc')
    ensures HeldOk(own', procs[p := pc'])
  {
    hide InHand;
  }

  lemma FixOkStep(fix: seq<Option<(nat, nat)>>, fix': seq<Option<(nat, nat)>>, procs: seq<Pc>, p: nat, pc': Pc)
    requires p < |procs| && FixOk(fix, procs) && FixStep(fix, fix', procs[p], pc')
    ensures FixOk(fix', procs[p := pc'])
  {
    hide WritesChain, OwesFix;
    var procs' := procs[p := pc'];
    forall h | 0 <= h < NHASH && fix'[h] != None
      ensures exists q :: 0 <= q < |procs'| && OwesFix(procs'[q]) && WritesChain(procs'[q], h)
    {
      if WritesChain(procs[p], h) {
        assert OwesFix(procs'[p]) && WritesChain(procs'[p], h);
      } else {
        var q :| 0 <= q < |procs| && OwesFix(procs[q]) && WritesChain(procs[q], h);
        assert procs'[q] == procs[q];
      }
    }
  }

  lemma MapOkStep(cur: map<string, string>, m: map<string, string>,
                  cur': map<string, string>, m': map<string, string>, procs: seq<Pc>, p: nat, pc': Pc)
    requires p < |procs| && MapOk(cur, m, procs) && MapStep(cur, m, cur', m', procs[p], pc')
    ensures MapOk(cur', m', procs[p := pc'])
  {
    hide Gap;
    var procs' := procs[p := pc'];
    forall k | (forall q | 0 <= q < |procs'| :: !Gap(procs'[q], k))
      ensures SameAt(cur', m', k)
    {
      assert procs'[p] == pc' && !Gap(pc', k);
      if SameAt(cur', cur, k) && SameAt(m', m, k) && !Gap(procs[p], k) {
        forall q | 0 <= q < |procs| ensures !Gap(procs[q], k) {
          if q != p { assert procs'[q] == procs[q]; }
        }
        assert SameAt(cur, m, k);
      }
    }
  }

  lemma ExclusiveStep(procs: seq<Pc>, p: nat, pc': Pc)
    requires p < |procs| && Exclusive(procs) && CompatibleWithOthers(procs, p, pc')
    ensures Exclusive(procs[p := pc'])
  {
    hide Compatible;
    var procs' := procs[p := pc'];
    forall a, b | 0 <= a < |procs'| && 0 <= b < |procs'| && a != b ensures Compatible(procs'[a], procs'[b]) {
      if a == p { assert Compatible(pc', procs[b]); }
      else if b == p { assert Compatible(pc', procs[a]); CompatibleSwap(pc', procs[a]); }
      else { assert Compatible(procs[a], procs[b]); }
    }
  }

  lemma CompatibleSwap(a: Pc, b: Pc)
    requires Compatible(a, b)
    ensures Compatible(b, a)
  {
  }

  /** One step, from what it does to each part. */
  lemma Assemble(s: State, g: Ghost, p: nat, img': Image, g': Ghost, pc': Pc)
    requires Inv(s, g) && p < |s.procs|
    requires Geometry(img') && CatInv(img', g'.cat)
    requires Guar(s.img, g, img', g', p, s.procs[p])
    requires Local(img', g', p, pc')
    requires CompatibleWithOthers(s.procs, p, pc')
    requires HeldStep(g.cat.own, g'.cat.own, p, pc')
    requires FixStep(g.cat.fix, g'.cat.fix, s.procs[p], pc')
    requires MapStep(MapOf(s.img, g.cat), g.m, MapOf(img', g'.cat), g'.m, s.procs[p], pc')
    ensures Inv(After(s, p, img', pc'), g')
  {
    hide CatInv, Guar, Local, HeldOk, HeldStep, FixStep, FixOk, MapOk, MapStep, MapOf, Geometry, Compatible, Exclusive,
         CompatibleWithOthers;
    HeldOkStep(g.cat.own, g'.cat.own, s.procs, p, pc');
    FixOkStep(g.cat.fix, g'.cat.fix, s.procs, p, pc');
    MapOkStep(MapOf(s.img, g.cat), g.m, MapOf(img', g'.cat), g'.m, s.procs, p, pc');
    ExclusiveStep(s.procs, p, pc');
    var s' := After(s, p, img', pc');
    forall q | 0 <= q < |s'.procs| ensures Local(s'.img, g', q, s'.procs[q]) {
      if q != p { OtherStep(s, g, p, img', g', q); }
    }
  }

  lemma OtherStep(s: State, g: Ghost, p: nat, img': Image, g': Ghost, q: nat)
    requires Inv(s, g) && p < |s.procs| && q < |s.procs| && p != q
    requires Guar(s.img, g, img', g', p, s.procs[p])
    ensures Local(img', g', q, s.procs[q])
  {
    assert Compatible(s.procs[p], s.procs[q]) && Local(s.img, g, q, s.procs[q]);
    hide CatInv, Guar, Local, FixOk, MapOk, MapOf, Geometry, Compatible, Exclusive, InHand;
    GuarGivesRely(s.img, g, img', g', p, s.procs[p], q, s.procs[q]);
    LocalFrame(s.img, g, img', g', q, s.procs[q]);
  }

  // ----- steps that write nothing -----

  lemma GuarSame(img: Image, g: Ghost, p: nat, pc: Pc)
    requires CatInv(img, g.cat)
    ensures Guar(img, g, img, g, p, pc)
  {
    ChainOwned(img, g.cat, 0);
    hide CatInv, WritesChain, InChain, AllBlank, WritesFree, LocksDat, LocksIdx;
  }

  /** Reading, taking and dropping locks: files and ghost stay. */
  lemma QuietStep(s: State, g: Ghost, p: nat, pc': Pc)
    requires Inv(s, g) && p < |s.procs| && CompatibleWithOthers(s.procs, p, pc')
    requires Local(s.img, g, p, pc') && InHand(pc') == InHand(s.procs[p])
    requires OwesFix(s.procs[p]) ==> OwesFix(pc') && pc'.op == s.procs[p].op
    requires forall k :: Gap(s.procs[p], k) ==> Gap(pc', k)
    ensures Inv(After(s, p, s.img, pc'), g)
  {
    hide CatInv, Local, MapOf, Geometry, Exclusive, Gap, OwesFix, InHand, Compatible, Guar, HeldOk, FixOk, MapOk,
         HeldStep, FixStep, MapStep, CompatibleWithOthers;
    GuarSame(s.img, g, p, s.procs[p]);
    QuietFix(s, g, p, pc');
    QuietHeld(g.cat.own, s.procs, p, pc');
    QuietMap(MapOf(s.img, g.cat), g.m, s.procs, p, pc');
    Assemble(s, g, p, s.img, g, pc');
  }

  lemma QuietHeld(own: map<nat, Owner>, procs: seq<Pc>, p: nat, pc': Pc)
    requires p < |procs| && HeldOk(own, procs) && InHand(pc') == InHand(procs[p])
    ensures HeldStep(own, own, p, pc')
  {
    hide InHand;
  }

  lemma QuietMap(cur: map<string, string>, m: map<string, string>, procs: seq<Pc>, p: nat, pc': Pc)
    requires p < |procs| && forall k :: Gap(procs[p], k) ==> Gap(pc', k)
    ensures MapStep(cur, m, cur, m, procs[p], pc')
  {
    hide Gap;
  }

  lemma QuietFix(s: State, g: Ghost, p: nat, pc': Pc)
    requires Inv(s, g) && p < |s.procs|
    requires OwesFix(s.procs[p]) ==> OwesFix(pc') && pc'.op == s.procs[p].op
    ensures FixStep(g.cat.fix, g.cat.fix, s.procs[p], pc')
  {
    hide CatInv, Geometry, HeldOk, MapOk, MapOf, Locals, Hash;
    var pc := s.procs[p];
    forall h | 0 <= h < NHASH && g.cat.fix[h] != None && WritesChain(pc, h)
      ensures OwesFix(pc') && WritesChain(pc', h)
    {
      var q :| 0 <= q < |s.procs| && OwesFix(s.procs[q]) && WritesChain(s.procs[q], h);
      if q != p { OneWriter(s.procs, p, q, h); }
    }
  }

  lemma OneWriter(procs: seq<Pc>, p: nat, q: nat, h: nat)
    requires Exclusive(procs) && p < |procs| && q < |procs| && p != q && WritesChain(procs[p], h)
    ensures !WritesChain(procs[q], h)
  {
    assert Compatible(procs[p], procs[q]);
  }
}
