/** The steps that rewrite pointer cells and index records in place. */
module DbRelinks {
  import opened Links
  import opened Wrappers
  import opened DbCodec
  import opened DbImage
  import opened DbCatalog
  import opened DbMoves
  import opened DbProcess
  import opened DbProtocol
  import opened DbFrame
  import opened DbSteps
  import opened DbWrites

  // ----- what other processes keep -----

  /** The cell c is p's to write: the free list's, or its own chain's, or in its hands. */
  ghost predicate MayWrite(cat: Catalog, p: nat, pc: Pc, c: nat) {
    && (forall h | 0 <= h < NHASH && !WritesChain(pc, h) :: c != HeadOff(h))
    && (c in cat.own && cat.own[c].Held? ==> cat.own[c].p == p)
    && (!WritesFree(pc) ==> c != FREE_OFF && c !in cat.free)
  }

  /** Catalog changes that concern chains p has locked and record o alone. */
  ghost predicate Confined(cat: Catalog, cat': Catalog, p: nat, pc: Pc, o: nat) {
    && |cat.chains| == |cat.fix| == |cat'.chains| == |cat'.fix| == NHASH
    && (forall h | 0 <= h < NHASH && !WritesChain(pc, h) ::
            cat'.fix[h] == cat.fix[h] && cat'.chains[h] == cat.chains[h])
    && (forall e | e in cat.own && e != o :: e in cat'.own && cat'.own[e] == cat.own[e])
    && (o in cat.own && cat.own[o].Chain? ==>
          WritesChain(pc, cat.own[o].h) || (o in cat'.own && cat'.own[o] == cat.own[o]))
    && (o in cat.own && cat.own[o].Held? ==> cat.own[o].p == p || (o in cat'.own && cat'.own[o] == cat.own[o]))
    && (!WritesFree(pc) ==> cat'.free == cat.free)
  }

  lemma ChainsSparedPtr(img: Image, cat: Catalog, cat': Catalog, p: nat, pc: Pc, c: nat, v: nat, o: nat)
    requires MayWrite(cat, p, pc, c) && Confined(cat, cat', p, pc, o)
    ensures ChainsSpared(img, cat, SetPtr(img, c, v), cat', pc)
  {
    hide WritesChain;
  }

  lemma GuarPtr(img: Image, g: Ghost, p: nat, op: Op, at: At, c: nat, v: nat, o: nat, g': Ghost)
    requires AtChain(at) && !op.Fetch? && MayWrite(g.cat, p, Run(op, at), c)
             && Confined(g.cat, g'.cat, p, Run(op, at), o)
    requires g'.cat.ext == g.cat.ext
    requires forall k | k != op.key :: (k in g'.cat.loc <==> k in g.cat.loc) && SameAt(g'.m, g.m, k)
    ensures Guar(img, g, SetPtr(img, c, v), g', p, Run(op, at))
  {
    KeysSparedAt(g, g', op, at);
    ChainsSparedPtr(img, g.cat, g'.cat, p, Run(op, at), c, v, o);
    hide AtFree, AtChain, ChainsSpared, KeysSpared, AllBlank, SameAt, WritesChain;
  }

  /** Record o, in p's hands, is rewritten. */
  lemma GuarRec(img: Image, g: Ghost, p: nat, op: Op, at: At, o: nat, v: nat, r: Rec)
    requires CatInv(img, g.cat) && AtChain(at) && !op.Fetch? && o in img.rec && o in g.cat.own
             && g.cat.own[o] == Held(p)
    requires WritesFree(Run(op, at)) || AllBlank(img.rec[o].key)
    ensures Guar(img, g, SetRec(img, o, v, r), g, p, Run(op, at))
  {
    KeysSparedAt(g, g, op, at);
    ChainSizes(img, g.cat);
    RecSpared(img, g.cat, p, o, v, r, Run(op, at));
    hide CatInv, AtFree, AtChain, ChainsSpared, HeldSpared, KeysSpared, AllBlank, SameAt, WritesChain, FreeKept;
  }

  lemma RecSpared(img: Image, cat: Catalog, p: nat, o: nat, v: nat, r: Rec, pc: Pc)
    requires CatInv(img, cat) && o in cat.own && cat.own[o] == Held(p)
    ensures ChainsSpared(img, cat, SetRec(img, o, v, r), cat, pc)
    ensures FreeKept(img, cat, SetRec(img, o, v, r), cat)
    ensures HeldSpared(img, cat, SetRec(img, o, v, r), cat, p)
  {
    ChainSizes(img, cat);
    HeldApart(img.rec.Keys, cat, o);
    hide CatInv, WritesChain;
  }

  // ----- deletion goes on: the record is blanked and pushed on the free list -----

  lemma BlankIdxDone(img: Image, g: Ghost, p: nat, op: Op, prev: nat, off: nat, r: Rec, nxt: nat, fr: nat)
    requires Ready(img, g, p, op, BlankIdx(prev, off, r, nxt, fr))
    ensures var at := BlankIdx(prev, off, r, nxt, fr);
            Done(img, g, p, Run(op, at), Effect(img, op, at), GhostNext(img, g, p, op, at), Run(op, Next(img, op, at)))
  {
    hide CatInv, Geometry, Hash, MapOf, ChainSays, Guar, HeldStep, FixStep, MapStep, ChainsSpared,
         Ready, Cells, AllBlank, Local, AbsentSays;
    var at := BlankIdx(prev, off, r, nxt, fr);
    Unpack(img, g, p, op, at);
    RecPlace(img, off);
    var r' := Rec(Blanks(|r.key|), r.datoff, r.datlen);
    BlankGeometry(img, off, fr, r);
    SetHeldOk(img, g.cat, off, fr, r');
    GuarRec(img, g, p, op, at, off, fr, r');
    QuietParts(img, g, p, op, at, SetFree(prev, off, nxt));
    BlankedLocal(img, g, p, op, prev, off, r, nxt, fr);
  }

  lemma RecPlace(img: Image, o: nat)
    requires Geometry(img) && o in img.rec
    ensures o >= FIRST_REC && o != FREE_OFF
  {
    hide Tiled, Cells, Extents;
  }

  lemma BlankGeometry(img: Image, o: nat, fr: nat, r: Rec)
    requires Geometry(img) && o in img.rec && img.rec[o] == r && FREE_OFF in img.ptr && img.ptr[FREE_OFF] == fr
    ensures Geometry(SetRec(img, o, fr, Rec(Blanks(|r.key|), r.datoff, r.datlen)))
  {
    SameLength(r.key, Blanks(|r.key|), r.datoff, r.datlen);
    hide Tiled, Spread, Extents;
    SetRecGeometry(img, o, fr, Rec(Blanks(|r.key|), r.datoff, r.datlen));
  }

  lemma BlankedLocal(img: Image, g: Ghost, p: nat, op: Op, prev: nat, off: nat, r: Rec, nxt: nat, fr: nat)
    requires OpSays(op, BlankIdx(prev, off, r, nxt, fr)) && ChainSays(img, g.cat, op.key, Owes(prev, nxt))
    requires HeldSays(img, op, HeldGone(off, r)) && AbsentSays(img, g.cat, g.m, op, None) && off != FREE_OFF
    requires FREE_OFF in img.ptr && img.ptr[FREE_OFF] == fr
    ensures Local(SetRec(img, off, fr, Rec(Blanks(|r.key|), r.datoff, r.datlen)), g, p,
            Run(op, SetFree(prev, off, nxt)))
  {
    hide Hash, CleanKey, CellOn;
  }

  lemma SetFreeDone(img: Image, g: Ghost, p: nat, op: Op, prev: nat, off: nat, nxt: nat)
    requires Ready(img, g, p, op, SetFree(prev, off, nxt))
    ensures var at := SetFree(prev, off, nxt);
            Done(img, g, p, Run(op, at), Effect(img, op, at), GhostNext(img, g, p, op, at), Run(op, Next(img, op, at)))
  {
    hide CatInv, Geometry, Hash, MapOf, ChainSays, Guar, HeldStep, FixStep, MapStep, MayWrite, Confined,
         Ready, Cells, AllBlank, Local, AbsentSays, PushFree;
    var at := SetFree(prev, off, nxt);
    Unpack(img, g, p, op, at);
    var g' := g.(cat := PushFree(g.cat, off));
    SetPtrGeometry(img, FREE_OFF, off);
    PushFreeOk(img, g.cat, off);
    PushMoves(img, g.cat, p, op, at, off);
    PushFreeGuar(img, g, p, op, at, off, g');
    PushedLocal(img, g, p, op, prev, off, nxt, g');
    PushFreeRest(g, p, op, prev, off, nxt, g');
    MapStepSame(MapOf(img, g.cat), g.m, op, at, Unlink(prev, nxt));
  }

  lemma PushMoves(img: Image, cat: Catalog, p: nat, op: Op, at: At, off: nat)
    requires CatInv(img, cat) && off in cat.own && cat.own[off] == Held(p) && AtFree(at)
    ensures MayWrite(cat, p, Run(op, at), FREE_OFF) && Confined(cat, PushFree(cat, off), p, Run(op, at), off)
  {
    ChainSizes(img, cat);
    assert FREE_OFF !in cat.own;
    hide CatInv, WritesChain;
  }

  lemma PushFreeGuar(img: Image, g: Ghost, p: nat, op: Op, at: At, off: nat, g': Ghost)
    requires at.SetFree? && !op.Fetch? && g' == g.(cat := PushFree(g.cat, off))
    requires MayWrite(g.cat, p, Run(op, at), FREE_OFF) && Confined(g.cat, g'.cat, p, Run(op, at), off)
    ensures Guar(img, g, SetPtr(img, FREE_OFF, off), g', p, Run(op, at))
  {
    hide MayWrite, Confined, Guar;
    GuarPtr(img, g, p, op, at, FREE_OFF, off, off, g');
  }

  lemma PushedLocal(img: Image, g: Ghost, p: nat, op: Op, prev: nat, off: nat, nxt: nat, g': Ghost)
    requires OpSays(op, SetFree(prev, off, nxt)) && ChainSays(img, g.cat, op.key, Owes(prev, nxt))
    requires AbsentSays(img, g.cat, g.m, op, None) && off in g.cat.own && g.cat.own[off] == Held(p)
    requires g' == g.(cat := PushFree(g.cat, off))
    ensures Local(SetPtr(img, FREE_OFF, off), g', p, Run(op, Unlink(prev, nxt)))
  {
    hide Hash, CleanKey;
  }

  lemma PushFreeRest(g: Ghost, p: nat, op: Op, prev: nat, off: nat, nxt: nat, g': Ghost)
    requires Hands(g.cat.own, p, Run(op, SetFree(prev, off, nxt))) && g' == g.(cat := PushFree(g.cat, off))
    requires |g.cat.fix| == NHASH && !op.Fetch?
    ensures HeldStep(g.cat.own, g'.cat.own, p, Run(op, Unlink(prev, nxt)))
    ensures FixStep(g.cat.fix, g'.cat.fix, Run(op, SetFree(prev, off, nxt)), Run(op, Unlink(prev, nxt)))
  {
    hide Hash, HeldStep, FixStep;
    HandsStep(g.cat.own, g'.cat.own, p, Run(op, SetFree(prev, off, nxt)), Run(op, Unlink(prev, nxt)));
    FixMoves(g.cat.fix, g'.cat.fix, op, SetFree(prev, off, nxt), Unlink(prev, nxt));
  }

  // ----- and the owed write is made -----

  lemma UnlinkDone(img: Image, g: Ghost, p: nat, op: Op, prev: nat, nxt: nat)
    requires Ready(img, g, p, op, Unlink(prev, nxt))
    ensures var at := Unlink(prev, nxt);
            Done(img, g, p, Run(op, at), Effect(img, op, at), GhostNext(img, g, p, op, at), Run(op, Next(img, op, at)))
  {
    hide CatInv, Geometry, Hash, MapOf, Guar, HeldStep, FixStep, MapStep, MayWrite, Confined,
         Ready, Cells, AllBlank, Local, AbsentSays, SameAt;
    var at := Unlink(prev, nxt);
    Unpack(img, g, p, op, at);
    var g' := g.(cat := Mend(g.cat, Hash(op.key)));
    SetPtrGeometry(img, prev, nxt);
    MendOk(img, g.cat, Hash(op.key), prev, nxt);
    SetPtrMap(img, g.cat, g'.cat, prev, nxt);
    MendMoves(img, g, p, op, prev, nxt);
    MendedLocal(img, g, p, op, prev, nxt, g');
    MendRest(g, p, op, prev, nxt, g');
    MendMap(MapOf(img, g.cat), g.m, op, prev, nxt);
  }

  lemma MendMoves(img: Image, g: Ghost, p: nat, op: Op, prev: nat, nxt: nat)
    requires CatInv(img, g.cat) && ChainSays(img, g.cat, op.key, Owes(prev, nxt)) && !op.Fetch?
    ensures Guar(img, g, SetPtr(img, prev, nxt), g.(cat := Mend(g.cat, Hash(op.key))), p, Run(op, Unlink(prev, nxt)))
  {
    hide CatInv, Hash, Guar, MayWrite, Confined, OwnOk;
    OwnPart(img, g.cat);
    CellOfChain(img.rec.Keys, g.cat, Hash(op.key), prev);
    HeadIsUnowned(img, g.cat, Hash(op.key));
    MendConfined(g.cat, p, op, prev, nxt);
    GuarPtr(img, g, p, op, Unlink(prev, nxt), prev, nxt, prev, g.(cat := Mend(g.cat, Hash(op.key))));
  }

  lemma OwnPart(img: Image, cat: Catalog)
    requires CatInv(img, cat)
    ensures OwnOk(img.rec.Keys, cat.own, cat.chains, cat.free)
  {
    hide OwnOk;
  }

  lemma MendConfined(cat: Catalog, p: nat, op: Op, prev: nat, nxt: nat)
    requires |cat.chains| == |cat.fix| == NHASH && CellOn(cat.own, Hash(op.key), prev) && !op.Fetch?
    requires HeadOff(Hash(op.key)) !in cat.own
    requires prev != FREE_OFF && forall k | 0 <= k < NHASH && k != Hash(op.key) :: prev != HeadOff(k)
    ensures MayWrite(cat, p, Run(op, Unlink(prev, nxt)), prev)
    ensures Confined(cat, Mend(cat, Hash(op.key)), p, Run(op, Unlink(prev, nxt)), prev)
  {
    hide Hash;
  }

  lemma HeadIsUnowned(img: Image, cat: Catalog, h: nat)
    requires CatInv(img, cat) && h < NHASH
    ensures HeadOff(h) !in cat.own && FREE_OFF !in cat.own
  {
  }

  lemma MendedLocal(img: Image, g: Ghost, p: nat, op: Op, prev: nat, nxt: nat, g': Ghost)
    requires OpSays(op, Unlink(prev, nxt)) && ChainSays(img, g.cat, op.key, Owes(prev, nxt))
    requires AbsentSays(img, g.cat, g.m, op, None) && g' == g.(cat := Mend(g.cat, Hash(op.key)))
    ensures Local(SetPtr(img, prev, nxt), g', p, Run(op, UnlockFreeDel))
  {
    hide Hash, CleanKey;
  }

  lemma MendRest(g: Ghost, p: nat, op: Op, prev: nat, nxt: nat, g': Ghost)
    requires Hands(g.cat.own, p, Run(op, Unlink(prev, nxt))) && |g.cat.fix| == NHASH && !op.Fetch?
    requires g' == g.(cat := Mend(g.cat, Hash(op.key)))
    ensures HeldStep(g.cat.own, g'.cat.own, p, Run(op, UnlockFreeDel))
    ensures FixStep(g.cat.fix, g'.cat.fix, Run(op, Unlink(prev, nxt)), Run(op, UnlockFreeDel))
  {
    hide Hash, HeldStep, FixStep;
    HandsStep(g.cat.own, g'.cat.own, p, Run(op, Unlink(prev, nxt)), Run(op, UnlockFreeDel));
    FixMoves(g.cat.fix, g'.cat.fix, op, Unlink(prev, nxt), UnlockFreeDel);
  }

  lemma MendMap(cur: map<string, string>, m: map<string, string>, op: Op, prev: nat, nxt: nat)
    ensures MapStep(cur, m, cur, m, Run(op, Unlink(prev, nxt)), Run(op, UnlockFreeDel))
  {
    hide MapStep;
    MapStepSame(cur, m, op, Unlink(prev, nxt), UnlockFreeDel);
  }

  // ----- a free record is taken -----

  lemma TakeFreeDone(img: Image, g: Ghost, p: nat, op: Op, v: nat, prev: nat, off: nat, r: Rec, nxt: nat)
    requires Ready(img, g, p, op, At.TakeFree(v, prev, off, r, nxt))
    ensures var at := At.TakeFree(v, prev, off, r, nxt);
            Done(img, g, p, Run(op, at), Effect(img, op, at), GhostNext(img, g, p, op, at), Run(op, Next(img, op, at)))
  {
    hide CatInv, Geometry, Hash, MapOf, ChainSays, Guar, HeldStep, FixStep, MapStep, MayWrite, Confined,
         Ready, Cells, AllBlank, Local, AbsentSays, SameAt, PlaceOk, Fits, DbCatalog.TakeFree;
    var at := At.TakeFree(v, prev, off, r, nxt);
    Unpack(img, g, p, op, at);
    FreePlace(img, g.cat, prev, off, nxt);
    var i := PosOf(g.cat.free, off);
    var g' := g.(cat := DbCatalog.TakeFree(g.cat, p, i));
    SetPtrGeometry(img, prev, nxt);
    TakeFreeOk(img, g.cat, p, i);
    TakeMoves(img, g, p, op, v, prev, off, r, nxt, g');
    TakenLocal(img, g, p, op, v, prev, off, r, nxt, g');
    CalmFix(img, g.cat, op.key);
    TakeRest(g, p, op, v, prev, off, r, nxt, g');
    MapStepSame(MapOf(img, g.cat), g.m, op, at, UnlockFree(v, Some((off, r))));
  }

  lemma CalmFix(img: Image, cat: Catalog, key: string)
    requires ChainSays(img, cat, key, Calm)
    ensures cat.fix[Hash(key)] == None
  {
  }

  lemma FreePlace(img: Image, cat: Catalog, prev: nat, off: nat, nxt: nat)
    requires CatInv(img, cat) && PlaceOk(FREE_OFF, cat.free, prev, off, nxt)
    ensures off in cat.free && off in cat.own && cat.own[off] == OnFree
    ensures prev == CellOf(FREE_OFF, cat.free, PosOf(cat.free, off)) && nxt == Nth(cat.free, PosOf(cat.free, off) + 1)
    ensures prev == FREE_OFF || (prev in cat.own && cat.own[prev] == OnFree)
    ensures FREE_OFF !in cat.own
    ensures forall h | 0 <= h < NHASH :: prev != HeadOff(h)
  {
    var s := cat.free;
    var j :| 0 <= j < |s| && s[j] == off && prev == CellOf(FREE_OFF, s, j) && nxt == Nth(s, j + 1);
    HeadsKept(img, cat, j);
    assert NoDup(s);
    if j > 0 { FreeElem(img, cat, j - 1); }
    FreeElem(img, cat, j);
    HeadIsUnowned(img, cat, 0);
    hide CatInv;
    assert PosOf(s, off) == j;
  }

  lemma TakeMoves(img: Image, g: Ghost, p: nat, op: Op, v: nat, prev: nat, off: nat, r: Rec, nxt: nat, g': Ghost)
    requires |g.cat.chains| == |g.cat.fix| == NHASH && op.Store?
    requires off in g.cat.free && off in g.cat.own && g.cat.own[off] == OnFree
    requires (prev == FREE_OFF && FREE_OFF !in g.cat.own) || (prev in g.cat.own && g.cat.own[prev] == OnFree)
    requires forall h | 0 <= h < NHASH :: prev != HeadOff(h)
    requires g' == g.(cat := DbCatalog.TakeFree(g.cat, p, PosOf(g.cat.free, off)))
    ensures Guar(img, g, SetPtr(img, prev, nxt), g', p, Run(op, At.TakeFree(v, prev, off, r, nxt)))
  {
    hide Hash, Guar, WritesChain;
    GuarPtr(img, g, p, op, At.TakeFree(v, prev, off, r, nxt), prev, nxt, off, g');
  }

  lemma TakenLocal(img: Image, g: Ghost, p: nat, op: Op, v: nat, prev: nat, off: nat, r: Rec, nxt: nat, g': Ghost)
    requires OpSays(op, At.TakeFree(v, prev, off, r, nxt)) && ChainSays(img, g.cat, op.key, Calm)
    requires AbsentSays(img, g.cat, g.m, op, Some(v)) && off in g.cat.free
    requires off in img.rec && img.rec[off] == r && Fits(op, r) && off <= PTR_MAX
    requires forall h | 0 <= h < NHASH :: prev != HeadOff(h)
    requires g' == g.(cat := DbCatalog.TakeFree(g.cat, p, PosOf(g.cat.free, off)))
    ensures Local(SetPtr(img, prev, nxt), g', p, Run(op, UnlockFree(v, Some((off, r)))))
  {
    hide Hash, CleanKey, Fits;
  }

  lemma TakeRest(g: Ghost, p: nat, op: Op, v: nat, prev: nat, off: nat, r: Rec, nxt: nat, g': Ghost)
    requires Hands(g.cat.own, p, Run(op, At.TakeFree(v, prev, off, r, nxt))) && |g.cat.fix| == NHASH
    requires g.cat.fix[Hash(op.key)] == None && off in g.cat.free && off in g.cat.own && g.cat.own[off] == OnFree
    requires g' == g.(cat := DbCatalog.TakeFree(g.cat, p, PosOf(g.cat.free, off)))
    ensures HeldStep(g.cat.own, g'.cat.own, p, Run(op, UnlockFree(v, Some((off, r)))))
    ensures FixStep(g.cat.fix, g'.cat.fix, Run(op, At.TakeFree(v, prev, off, r, nxt)),
            Run(op, UnlockFree(v, Some((off, r)))))
  {
    hide Hash, HeldStep, FixStep;
    HandsStep(g.cat.own, g'.cat.own, p, Run(op, At.TakeFree(v, prev, off, r, nxt)),
              Run(op, UnlockFree(v, Some((off, r)))));
    FixMoves(g.cat.fix, g'.cat.fix, op, At.TakeFree(v, prev, off, r, nxt), UnlockFree(v, Some((off, r))));
  }

  // ----- and given its new key -----

  lemma ReuseIdxDone(img: Image, g: Ghost, p: nat, op: Op, v: nat, off: nat, r: Rec)
    requires Ready(img, g, p, op, ReuseIdx(v, off, r))
    ensures var at := ReuseIdx(v, off, r);
            Done(img, g, p, Run(op, at), Effect(img, op, at), GhostNext(img, g, p, op, at), Run(op, Next(img, op, at)))
  {
    hide CatInv, Geometry, Hash, MapOf, ChainSays, Guar, HeldStep, FixStep, MapStep, ChainsSpared,
         Ready, Cells, AllBlank, Local, AbsentSays;
    var at := ReuseIdx(v, off, r);
    Unpack(img, g, p, op, at);
    RecPlace(img, off);
    var r' := Rec(op.key, r.datoff, r.datlen);
    HeadBound(img, g, op, v);
    NamedGeometry(img, off, op, v, r);
    SetHeldOk(img, g.cat, off, v, r');
    GuarRec(img, g, p, op, at, off, v, r');
    QuietParts(img, g, p, op, at, LinkHead(off));
    NamedLocal(img, g, p, op, v, off, r);
  }

  lemma HeadBound(img: Image, g: Ghost, op: Op, v: nat)
    requires AbsentSays(img, g.cat, g.m, op, Some(v))
    ensures v <= PTR_MAX
  {
  }

  lemma NamedGeometry(img: Image, o: nat, op: Op, v: nat, r: Rec)
    requires Geometry(img) && o in img.rec && img.rec[o] == r && CleanKey(op.key) && |op.key| == |r.key| && v <= PTR_MAX
    ensures Geometry(SetRec(img, o, v, Rec(op.key, r.datoff, r.datlen)))
  {
    SameLength(r.key, op.key, r.datoff, r.datlen);
    hide Tiled, Spread, Extents;
    SetRecGeometry(img, o, v, Rec(op.key, r.datoff, r.datlen));
  }

  lemma NamedLocal(img: Image, g: Ghost, p: nat, op: Op, v: nat, off: nat, r: Rec)
    requires OpSays(op, ReuseIdx(v, off, r)) && ChainSays(img, g.cat, op.key, Calm)
             && HeldSays(img, op, HeldFilled(off, r))
    requires AbsentSays(img, g.cat, g.m, op, Some(v)) && off >= FIRST_REC
    ensures Local(SetRec(img, off, v, Rec(op.key, r.datoff, r.datlen)), g, p, Run(op, LinkHead(off)))
  {
    hide Hash, CleanKey, AllBlank;
  }
}
