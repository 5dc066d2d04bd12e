/** Consequences of the invariant: no deadlock, what db_nextrec may return, what the files hold. */
module DbProgress {
  import opened Links
  import opened Wrappers
  import opened DbCodec
  import opened DbImage
  import opened DbCatalog
  import opened DbProcess
  import opened DbProtocol

  // ----- no deadlock -----

  predicate Active(pc: Pc) { !Resting(pc) && !Gone(pc) }

  /** A lock that is never held while waiting for another. */
  predicate LeafLock(pc: Pc) { WritesFree(pc) || ReadsFree(pc) || LocksDat(pc) || LocksIdx(pc) }

  /** Places where the next step asks for a lock. */
  predicate Asks(pc: Pc) {
    || (pc.Run? && (pc.at.LockChain? || AsksLeaf(pc.at)))
    || (pc.Scan? && pc.sc.ScanLock?)
  }

  predicate AsksLeaf(at: At) { at.LockFreeDel? || at.LockFree? || at.LockDat? || at.LockIdx? }

  /** At most one lock besides the chain's, and none of the others is held while asking. */
  lemma LockOrder(pc: Pc)
    ensures !(WritesFree(pc) && ReadsFree(pc)) && !(WritesFree(pc) && LocksDat(pc)) && !(WritesFree(pc) && LocksIdx(pc))
    ensures !(ReadsFree(pc) && LocksDat(pc)) && !(ReadsFree(pc) && LocksIdx(pc)) && !(LocksDat(pc) && LocksIdx(pc))
    ensures Asks(pc) ==> !LeafLock(pc)
    ensures pc.Run? && pc.at.LockChain? ==> !InChain(pc)
  {
  }

  /** Any other step holds no lock it did not hold before. */
  lemma NoNewLock(img: Image, pc: Pc, other: Pc)
    requires !Asks(pc) && Compatible(pc, other)
    ensures Compatible(NextOf(img, pc), other)
  {
    hide Hash, LengthOk, AllBlank, SizesOk;
    match pc {
      case Idle =>
      case Run(op, at) =>
        var at' := Next(img, op, at);
        assert (AtChain(at') ==> AtChain(at)) && (AtFree(at') ==> AtFree(at));
        assert ((at'.SeekDat? || at'.WriteDat? || at'.UnlockDat?) ==> (at.SeekDat? || at.WriteDat? || at.UnlockDat?))
               && ((at'.SeekIdx? || at'.WriteIdx? || at'.UnlockIdx?) ==>
                     (at.SeekIdx? || at.WriteIdx? || at.UnlockIdx?));
        hide Next, AtChain, AtFree;
      case Scan(sc) =>
    }
  }

  lemma FreeToGo(s: State, p: nat)
    requires Exclusive(s.procs) && p < |s.procs| && Active(s.procs[p]) && !Asks(s.procs[p])
    ensures Enabled(s, p)
  {
    hide Asks, NextOf, Compatible, Resting, Gone;
    forall q | 0 <= q < |s.procs| && q != p ensures Compatible(NextOf(s.img, s.procs[p]), s.procs[q]) {
      NoNewLock(s.img, s.procs[p], s.procs[q]);
    }
  }

  /** Whoever holds a lock other than a chain's can go on. */
  lemma LeafGoes(s: State, q: nat)
    requires Exclusive(s.procs) && q < |s.procs| && LeafLock(s.procs[q])
    ensures Enabled(s, q)
  {
    LockOrder(s.procs[q]);
    FreeToGo(s, q);
  }

  /** A process that asks for such a lock can go on, or the holder can. */
  lemma LeafAsked(s: State, p: nat)
    requires Exclusive(s.procs) && p < |s.procs| && Asks(s.procs[p]) && !(s.procs[p].Run? && s.procs[p].at.LockChain?)
    ensures exists q :: Enabled(s, q)
  {
    var pc' := NextOf(s.img, s.procs[p]);
    if q :| 0 <= q < |s.procs| && q != p && LeafLock(s.procs[q]) {
      LeafGoes(s, q);
    } else {
      forall q | 0 <= q < |s.procs| && q != p ensures Compatible(pc', s.procs[q]) {
        assert Compatible(s.procs[p], s.procs[q]);
        assert !LeafLock(s.procs[q]);
        AskedCompatible(s.img, s.procs[p], s.procs[q]);
      }
      assert Enabled(s, p);
    }
  }

  lemma AskedCompatible(img: Image, pc: Pc, other: Pc)
    requires Asks(pc) && !(pc.Run? && pc.at.LockChain?) && Compatible(pc, other) && !LeafLock(other)
    ensures Compatible(NextOf(img, pc), other)
  {
    hide Hash;
  }

  /** In no reachable state are all processes that are inside a call stuck. */
  lemma NoDeadlock(s: State, g: Ghost, p: nat)
    requires Inv(s, g) && p < |s.procs| && Active(s.procs[p])
    ensures exists q :: Enabled(s, q)
  {
    hide CatInv, Geometry, HeldOk, FixOk, MapOk, MapOf, Locals, Hash;
    if !Asks(s.procs[p]) {
      FreeToGo(s, p);
    } else if !(s.procs[p].Run? && s.procs[p].at.LockChain?) {
      LeafAsked(s, p);
    } else if q :| 0 <= q < |s.procs| && q != p && InChain(s.procs[q]) {
      ChainHolderGoes(s, q);
    } else {
      ChainFree(s, p);
    }
  }

  lemma ChainHolderGoes(s: State, q: nat)
    requires Exclusive(s.procs) && q < |s.procs| && InChain(s.procs[q])
    ensures exists r :: Enabled(s, r)
  {
    if Asks(s.procs[q]) { LeafAsked(s, q); } else { FreeToGo(s, q); }
  }

  lemma ChainFree(s: State, p: nat)
    requires p < |s.procs| && s.procs[p].Run? && s.procs[p].at.LockChain?
    requires forall q | 0 <= q < |s.procs| && q != p :: !InChain(s.procs[q])
    ensures Enabled(s, p)
  {
    hide Hash;
  }

  // ----- what db_nextrec returns -----

  /** A live key, with its data. */
  ghost predicate LiveEntry(m: map<string, string>, key: string, data: string) { key in m && m[key] == data }

  /** A store that has completed its record and not yet put it on its chain, or never will. */
  predicate Unlinked(pc: Pc, key: string, data: string) {
    && pc.Run? && (pc.at.UnlockIdx? || pc.at.LinkHead? || pc.at.Halted?)
    && pc.op.Store? && pc.op.key == key && pc.op.data == data
  }

  /** The entry db_nextrec is about to return is live with its current data, or it is the complete
      record of a store in flight; never a key whose data is being blanked. */
  lemma NextRecAnswer(s: State, g: Ghost, p: nat, pos: nat, r: Rec)
    requires Inv(s, g) && p < |s.procs| && s.procs[p] == Scan(ScanData(pos, r))
    ensures r.datoff in s.img.dat && !AllBlank(r.key)
    ensures ScanNext(s.img, ScanData(pos, r)).out == Some((r.key, s.img.dat[r.datoff]))
    ensures LiveEntry(g.m, r.key, s.img.dat[r.datoff])
            || exists q :: 0 <= q < |s.procs| && Unlinked(s.procs[q], r.key, s.img.dat[r.datoff])
  {
    hide CatInv, Geometry, FixOk, MapOk, MapOf, Hash, AllBlank, Exclusive, InHand, HeldOk;
    assert Local(s.img, g, p, s.procs[p]);
    RecExtent(s.img, g.cat, pos);
    OwnerCases(s.img, g.cat, pos);
    if g.cat.own[pos].Chain? {
      LiveAgrees(s, g, pos);
    } else {
      var q := g.cat.own[pos].p;
      HeldWho(g.cat.own, s.procs, pos);
      assert Local(s.img, g, q, s.procs[q]);
      assert Compatible(s.procs[p], s.procs[q]) by { ScanExcludes(s, p, q); }
      HeldNamed(s.img, g, q, s.procs[q], pos);
    }
  }

  lemma OwnerCases(img: Image, cat: Catalog, o: nat)
    requires CatInv(img, cat) && o in img.rec && !AllBlank(img.rec[o].key)
    ensures o in cat.own && !cat.own[o].OnFree?
  {
  }

  lemma ScanExcludes(s: State, p: nat, q: nat)
    requires Exclusive(s.procs) && p < |s.procs| && q < |s.procs| && s.procs[p].Scan? && s.procs[q].Run?
    ensures Compatible(s.procs[p], s.procs[q])
  {
    assert p != q;
  }

  lemma HeldWho(own: map<nat, Owner>, procs: seq<Pc>, o: nat)
    requires HeldOk(own, procs) && o in own && own[o].Held?
    ensures own[o].p < |procs| && InHand(procs[own[o].p]) == Some(o) && procs[own[o].p].Run?
  {
  }

  lemma HeldNamed(img: Image, g: Ghost, q: nat, pc: Pc, o: nat)
    requires Local(img, g, q, pc) && InHand(pc) == Some(o) && o in img.rec && !AllBlank(img.rec[o].key)
             && !WritesFree(pc)
    ensures img.rec[o].datoff in img.dat && Unlinked(pc, img.rec[o].key, img.dat[img.rec[o].datoff])
  {
    hide AllBlank, Hash, ChainSays, FreeSays, EndSays, AbsentSays;
  }

  /** A record on a chain is what the abstract map says of its key. */
  lemma LiveAgrees(s: State, g: Ghost, o: nat)
    requires Inv(s, g) && o in g.cat.own && g.cat.own[o].Chain?
    ensures o in s.img.rec && s.img.rec[o].datoff in s.img.dat
    ensures LiveEntry(g.m, s.img.rec[o].key, s.img.dat[s.img.rec[o].datoff])
  {
    hide Geometry, FixOk, HeldOk, MapOf, Hash, AllBlank, Exclusive, Local;
    var key := s.img.rec[o].key;
    assert key in g.cat.loc && g.cat.loc[key] == o;
    LiveKeys(s.img, g.cat);
    hide CatInv;
    forall q | 0 <= q < |s.procs| ensures !Gap(s.procs[q], key) {
      if Gap(s.procs[q], key) { assert Local(s.img, g, q, s.procs[q]); GapMissing(s.img, g, q, s.procs[q], key); }
    }
    assert SameAt(MapOf(s.img, g.cat), g.m, key);
  }

  lemma GapMissing(img: Image, g: Ghost, q: nat, pc: Pc, key: string)
    requires Local(img, g, q, pc) && Gap(pc, key)
    ensures key !in g.cat.loc
  {
    hide Hash;
  }

  // ----- what the files hold -----

  /** With no store between taking the old record away and linking the new one, the files hold
      exactly the abstract map. */
  lemma FilesAgree(s: State, g: Ghost)
    requires Inv(s, g) && forall p, k | 0 <= p < |s.procs| :: !Gap(s.procs[p], k)
    ensures MapOf(s.img, g.cat) == g.m
  {
    hide CatInv, Geometry, FixOk, HeldOk, MapOf, Locals, Exclusive, Gap;
    assert forall k :: SameAt(MapOf(s.img, g.cat), g.m, k);
    SameMaps(MapOf(s.img, g.cat), g.m);
  }

  lemma SameMaps(a: map<string, string>, b: map<string, string>)
    requires forall k :: SameAt(a, b, k)
    ensures a == b
  {
    assert forall k :: SameAt(a, b, k) ==> (k in a <==> k in b);
    assert a.Keys == b.Keys;
    forall k | k in a ensures a[k] == b[k] { assert SameAt(a, b, k); }
  }

  /** A list that starts in a header cell and visits each of its records once. */
  ghost predicate ListAt(ptr: map<nat, nat>, from: nat, s: seq<nat>) { Linked(ptr, from, s) && NoDup(s) }

  /** Some process that has chain h locked for writing still owes it a pointer. */
  ghost predicate Owed(procs: seq<Pc>, h: nat) {
    exists p :: 0 <= p < |procs| && OwesFix(procs[p]) && WritesChain(procs[p], h)
  }

  /** In every reachable state, following the pointers on file from the free-list cell and from the head of
      every chain that no deletion is in the middle of, and on a chain that one is with the one cell
      it has still to write read as written, visits every index record not in a process's hands, exactly
      once over all, and none that is. */
  lemma Partition(s: State, g: Ghost)
    requires Inv(s, g)
    ensures |g.cat.chains| == NHASH && ListAt(s.img.ptr, FREE_OFF, g.cat.free)
    ensures forall h {:trigger g.cat.chains[h]} | 0 <= h < NHASH && !Owed(s.procs, h) ::
              ListAt(s.img.ptr, HeadOff(h), g.cat.chains[h])
    ensures forall p | 0 <= p < |s.procs| && OwesFix(s.procs[p]) ::
              var c, h := ChainClaimOf(s.procs[p].at), Hash(s.procs[p].op.key);
              ListAt(s.img.ptr[c.prev := c.nxt], HeadOff(h), g.cat.chains[h])
    ensures forall h, o {:trigger o in g.cat.chains[h]} | 0 <= h < NHASH && o in g.cat.chains[h] ::
              && o !in g.cat.free && o in s.img.rec && Hash(s.img.rec[o].key) == h
              && forall k | 0 <= k < NHASH && k != h :: o !in g.cat.chains[k]
    ensures forall o | o in g.cat.free :: o in s.img.rec && AllBlank(s.img.rec[o].key)
    ensures forall p | 0 <= p < |s.procs| && InHand(s.procs[p]).Some? ::
              && InHand(s.procs[p]).value in s.img.rec && InHand(s.procs[p]).value !in g.cat.free
              && forall h | 0 <= h < NHASH :: InHand(s.procs[p]).value !in g.cat.chains[h]
    ensures forall o | o in s.img.rec :: o in g.cat.free || (exists h :: 0 <= h < NHASH && o in g.cat.chains[h])
              || (exists p :: 0 <= p < |s.procs| && InHand(s.procs[p]) == Some(o))
  {
    hide Geometry, MapOf, MapOk, Exclusive, WritesChain, CatInv, Hash, HeldOk, ListAt, Local, InHand;
    ChainCount(s.img, g.cat);
    forall h | 0 <= h < NHASH && !Owed(s.procs, h) ensures ListAt(s.img.ptr, HeadOff(h), g.cat.chains[h]) {
      assert g.cat.fix[h] == None;
      ListOk(s.img, g.cat, h);
    }
    forall p | 0 <= p < |s.procs| && OwesFix(s.procs[p])
      ensures var c, h := ChainClaimOf(s.procs[p].at), Hash(s.procs[p].op.key);
              ListAt(s.img.ptr[c.prev := c.nxt], HeadOff(h), g.cat.chains[h])
    {
      assert Local(s.img, g, p, s.procs[p]);
      OwedList(s.img, g, p, s.procs[p]);
    }
    Placed(s.img, g.cat, s.procs);
    HandsApart(s.img, g.cat, s.procs);
  }

  lemma ChainCount(img: Image, cat: Catalog)
    requires CatInv(img, cat)
    ensures |cat.chains| == |cat.fix| == NHASH && ListAt(img.ptr, FREE_OFF, cat.free)
  {
  }

  /** A chain with the write owed to it, if any, made. */
  lemma ListOk(img: Image, cat: Catalog, h: nat)
    requires CatInv(img, cat) && |cat.fix| == |cat.chains| == NHASH && h < NHASH
    ensures ListAt(Eff(img.ptr, cat.fix[h]), HeadOff(h), cat.chains[h])
  {
    hide Linked, OwnOk, ExtOk, LocOk, FreeBlank, Eff;
    assert Linked(Eff(img.ptr, cat.fix[h]), HeadOff(h), cat.chains[h]);
  }

  lemma OwedList(img: Image, g: Ghost, p: nat, pc: Pc)
    requires CatInv(img, g.cat) && Local(img, g, p, pc) && OwesFix(pc)
    ensures |g.cat.chains| == NHASH
    ensures var c, h := ChainClaimOf(pc.at), Hash(pc.op.key);
            ListAt(img.ptr[c.prev := c.nxt], HeadOff(h), g.cat.chains[h])
  {
    ChainCount(img, g.cat);
    hide CatInv, Hash, ListAt, FreeSays, HeldSays, EndSays, AbsentSays, OpSays, CellOn, WalkOk, PlaceOk;
    ListOk(img, g.cat, Hash(pc.op.key));
  }

  /** A record in hand is on no list. */
  lemma HandsApart(img: Image, cat: Catalog, procs: seq<Pc>)
    requires CatInv(img, cat) && HeldOk(cat.own, procs)
    ensures |cat.chains| == NHASH
    ensures forall p | 0 <= p < |procs| && InHand(procs[p]).Some? ::
              && InHand(procs[p]).value in img.rec && InHand(procs[p]).value !in cat.free
              && forall h | 0 <= h < NHASH :: InHand(procs[p]).value !in cat.chains[h]
  {
    hide ChainsOk, FreeOk, ExtOk, LocOk, FreeBlank, InHand;
  }

  lemma Placed(img: Image, cat: Catalog, procs: seq<Pc>)
    requires CatInv(img, cat) && HeldOk(cat.own, procs)
    ensures |cat.chains| == NHASH
    ensures forall h, o {:trigger o in cat.chains[h]} | 0 <= h < NHASH && o in cat.chains[h] ::
              && o !in cat.free && o in img.rec && Hash(img.rec[o].key) == h
              && forall k | 0 <= k < NHASH && k != h :: o !in cat.chains[k]
    ensures forall o | o in cat.free :: o in img.rec && AllBlank(img.rec[o].key)
    ensures forall o | o in img.rec :: o in cat.free || (exists h :: 0 <= h < NHASH && o in cat.chains[h])
              || (exists p :: 0 <= p < |procs| && InHand(procs[p]) == Some(o))
  {
    hide ChainsOk, FreeOk, ExtOk, InHand, AllBlank;
    forall o | o in img.rec
      ensures o in cat.free || (exists h :: 0 <= h < NHASH && o in cat.chains[h])
              || (exists p :: 0 <= p < |procs| && InHand(procs[p]) == Some(o))
    {
      assert o in cat.own;
    }
  }

  /** In every reachable state no two records share a key on a chain, an extent or a byte, no two extents
      overlap, and every record's extent has the length the record gives. */
  lemma NothingShared(s: State, g: Ghost)
    requires Inv(s, g)
    ensures forall a, b | a in s.img.rec && b in s.img.rec && a < b ::
              RecEnd(s.img, a) <= b && s.img.rec[a].datoff != s.img.rec[b].datoff
    ensures forall a, b {:trigger g.cat.own[a], g.cat.own[b]} |
              a in g.cat.own && b in g.cat.own && g.cat.own[a].Chain? && g.cat.own[b].Chain? && a != b ::
              a in s.img.rec && b in s.img.rec && s.img.rec[a].key != s.img.rec[b].key
    ensures forall a, b | a in s.img.dat && b in s.img.dat && a < b :: a + |s.img.dat[a]| + 1 <= b
    ensures forall a | a in s.img.rec ::
              s.img.rec[a].datoff in s.img.dat && |s.img.dat[s.img.rec[a].datoff]| + 1 == s.img.rec[a].datlen
  {
    hide FixOk, HeldOk, MapOk, MapOf, Locals, Exclusive, Hash, Linked, BodyLen;
    Separate(s.img);
    OneKeyEach(s.img, g.cat);
    OneExtentEach(s.img, g.cat);
  }

  lemma Separate(img: Image)
    requires Geometry(img)
    ensures forall a, b | a in img.rec && b in img.rec && a < b :: RecEnd(img, a) <= b
    ensures forall a, b | a in img.dat && b in img.dat && a < b :: a + |img.dat[a]| + 1 <= b
  {
    forall a, b | a in img.rec && b in img.rec && a < b ensures RecEnd(img, a) <= b { assert RecEnd(img, b) > b; }
  }

  lemma OneKeyEach(img: Image, cat: Catalog)
    requires CatInv(img, cat)
    ensures forall a, b {:trigger cat.own[a], cat.own[b]} |
              a in cat.own && b in cat.own && cat.own[a].Chain? && cat.own[b].Chain? && a != b ::
              a in img.rec && b in img.rec && img.rec[a].key != img.rec[b].key
  {
    hide ChainsOk, FreeOk, OwnOk, ExtOk, FreeBlank;
    forall a | a in cat.own && cat.own[a].Chain?
      ensures a in img.rec && img.rec[a].key in cat.loc && cat.loc[img.rec[a].key] == a
    {
    }
  }

  lemma OneExtentEach(img: Image, cat: Catalog)
    requires CatInv(img, cat)
    ensures forall a, b | a in img.rec && b in img.rec && a < b :: img.rec[a].datoff != img.rec[b].datoff
    ensures forall a | a in img.rec ::
              img.rec[a].datoff in img.dat && |img.dat[img.rec[a].datoff]| + 1 == img.rec[a].datlen
  {
    hide ChainsOk, FreeOk, OwnOk, LocOk, FreeBlank;
    forall a, b | a in img.rec && b in img.rec && a < b ensures img.rec[a].datoff != img.rec[b].datoff {
      ExtentsDistinct(img.rec, img.dat, cat.ext, a, b);
    }
  }
}
