/** The steps that extend the files, put a new record on its chain, or give up for good. */
module DbAppends {
  import opened Wrappers
  import opened DbCodec
  import opened DbImage
  import opened DbCatalog
  import opened DbMoves
  import opened DbProcess
  import opened DbProtocol
  import opened DbFrame
  import opened DbSteps
  import opened DbReads
  import opened DbWrites
  import opened DbRelinks

  // ----- data at the end of the data file -----

  lemma WriteDatDone(img: Image, g: Ghost, p: nat, op: Op, v: nat, d: nat)
    requires Ready(img, g, p, op, WriteDat(v, d))
    ensures var at := WriteDat(v, d);
            Done(img, g, p, Run(op, at), Effect(img, op, at), GhostNext(img, g, p, op, at), Run(op, Next(img, op, at)))
  {
    hide CatInv, Geometry, Hash, MapOf, ChainSays, Guar, HeldStep, FixStep, MapStep,
         Ready, Local, AbsentSays, SameAt;
    var at := WriteDat(v, d);
    Unpack(img, g, p, op, at);
    var g' := g.(cat := NewExtent(g.cat, p, d));
    assert WriteDatAt(img, d, op.data) == AddDat(img, op.data);
    AddDatGeometry(img, op.data);
    NewExtentOk(img, g.cat, p, op.data);
    NewExtentGuar(img, g, p, op, v, g');
    NewExtentLocal(img, g, p, op, v, g');
    CalmFix(img, g.cat, op.key);
    HandsStep(g.cat.own, g.cat.own, p, Run(op, at), Run(op, UnlockDat(v, d)));
    FixMoves(g.cat.fix, g'.cat.fix, op, at, UnlockDat(v, d));
    MapStepSame(MapOf(img, g.cat), g.m, op, at, UnlockDat(v, d));
  }

  lemma NewExtentGuar(img: Image, g: Ghost, p: nat, op: Op, v: nat, g': Ghost)
    requires CatInv(img, g.cat) && op.Store? && img.dend !in img.dat && g' == g.(cat := NewExtent(g.cat, p, img.dend))
    ensures Guar(img, g, AddDat(img, op.data), g', p, Run(op, WriteDat(v, img.dend)))
  {
    ExtKeys(img, g.cat);
    ChainSizes(img, g.cat);
    hide CatInv, Hash, AllBlank;
  }

  lemma ExtKeys(img: Image, cat: Catalog)
    requires CatInv(img, cat)
    ensures cat.ext.Keys == img.dat.Keys && cat.own.Keys == img.rec.Keys
    ensures forall o | o in img.rec :: img.rec[o].datoff in img.dat
  {
  }

  lemma NewExtentLocal(img: Image, g: Ghost, p: nat, op: Op, v: nat, g': Ghost)
    requires OpSays(op, WriteDat(v, img.dend)) && ChainSays(img, g.cat, op.key, Calm)
    requires AbsentSays(img, g.cat, g.m, op, Some(v)) && g' == g.(cat := NewExtent(g.cat, p, img.dend))
    ensures Local(AddDat(img, op.data), g', p, Run(op, UnlockDat(v, img.dend)))
  {
    hide Hash, CleanKey;
  }

  // ----- an index record at the end of the index file -----

  lemma WriteIdxDone(img: Image, g: Ghost, p: nat, op: Op, v: nat, d: nat, off: nat)
    requires Ready(img, g, p, op, WriteIdx(v, d, off))
    ensures var at := WriteIdx(v, d, off);
            Done(img, g, p, Run(op, at), Effect(img, op, at), GhostNext(img, g, p, op, at), Run(op, Next(img, op, at)))
  {
    hide CatInv, Geometry, Hash, MapOf, ChainSays, Guar, HeldStep, FixStep, MapStep, LengthOk,
         Ready, Local, AbsentSays, SameAt, BodyLen, RecOk, CleanKey, SizesOk, OpOk;
    var at := WriteIdx(v, d, off);
    Unpack(img, g, p, op, at);
    var g' := g.(cat := NewRecord(g.cat, p, off, d));
    assert WriteRecAt(img, off, v, NewRec(op, d)) == AddRec(img, v, NewRec(op, d));
    HeadBound(img, g, op, v);
    NewRecGood(op, d);
    EndPlace(img, v, NewRec(op, d));
    NewRecordOk(img, g.cat, p, v, NewRec(op, d));
    ExtKeys(img, g.cat);
    NewRecordGuar(img, g, p, op, v, d, g');
    NewRecordLocal(img, g, p, op, v, d, g');
    CalmFix(img, g.cat, op.key);
    NewRecordHands(g.cat, p, op, v, d, off);
    FixMoves(g.cat.fix, g'.cat.fix, op, at, UnlockIdx(off));
    MapStepSame(MapOf(img, g.cat), g.m, op, at, UnlockIdx(off));
  }

  lemma NewRecordHands(cat: Catalog, p: nat, op: Op, v: nat, d: nat, off: nat)
    requires Hands(cat.own, p, Run(op, WriteIdx(v, d, off))) && off !in cat.own
    ensures HeldStep(cat.own, NewRecord(cat, p, off, d).own, p, Run(op, UnlockIdx(off)))
  {
    HandsStep(cat.own, NewRecord(cat, p, off, d).own, p, Run(op, WriteIdx(v, d, off)), Run(op, UnlockIdx(off)));
  }

  lemma NewRecGood(op: Op, d: nat)
    requires op.Store? && OpOk(op) && SizesOk(op) && LengthOk(NewRec(op, d))
    ensures RecOk(NewRec(op, d))
  {
  }

  lemma EndPlace(img: Image, v: nat, r: Rec)
    requires Geometry(img) && v <= PTR_MAX && RecOk(r)
    ensures img.iend !in img.rec && img.iend !in img.ptr && img.iend >= FIRST_REC
    ensures Geometry(AddRec(img, v, r))
  {
    AddRecGeometry(img, v, r);
    hide Tiled, Cells, Extents, RecOk;
  }

  lemma NewRecordGuar(img: Image, g: Ghost, p: nat, op: Op, v: nat, d: nat, g': Ghost)
    requires CatInv(img, g.cat) && op.Store? && img.iend !in img.rec && img.iend !in img.ptr
    requires d in g.cat.ext && g.cat.ext[d] == Loose(p) && g' == g.(cat := NewRecord(g.cat, p, img.iend, d))
    ensures Guar(img, g, AddRec(img, v, NewRec(op, d)), g', p, Run(op, WriteIdx(v, d, img.iend)))
  {
    ExtKeys(img, g.cat);
    ChainSizes(img, g.cat);
    FreeFacts(img, g.cat);
    hide CatInv, Hash, AllBlank, HeldSpared, LooseSpared, ChainsSpared, FreeKept, KeysSpared, WritesChain;
    var img' := AddRec(img, v, NewRec(op, d));
    NewRecordSpared(img, g.cat, p, op, v, d);
    assert FreeKept(img, g.cat, img', g'.cat) by { hide NamedKept, Grows, RecEnd; }
    KeysSparedAt(g, g', op, WriteIdx(v, d, img.iend)) by { hide NamedKept, Grows; }
  }

  lemma FreeFacts(img: Image, cat: Catalog)
    requires CatInv(img, cat)
    ensures forall o | o in cat.free :: o in img.rec
  {
  }

  lemma NewRecordSpared(img: Image, cat: Catalog, p: nat, op: Op, v: nat, d: nat)
    requires op.Store? && img.iend !in img.rec && img.iend !in img.ptr && |cat.chains| == |cat.fix| == NHASH
    requires cat.ext.Keys == img.dat.Keys && cat.own.Keys == img.rec.Keys && d in cat.ext && cat.ext[d] == Loose(p)
    ensures var img', cat' := AddRec(img, v, NewRec(op, d)), NewRecord(cat, p, img.iend, d);
            && ChainsSpared(img, cat, img', cat', Run(op, WriteIdx(v, d, img.iend)))
            && HeldSpared(img, cat, img', cat', p) && LooseSpared(img, cat, img', cat', p)
  {
    hide WritesChain;
  }

  lemma NewRecordLocal(img: Image, g: Ghost, p: nat, op: Op, v: nat, d: nat, g': Ghost)
    requires OpSays(op, WriteIdx(v, d, img.iend)) && ChainSays(img, g.cat, op.key, Calm)
             && LooseSays(img, g.cat, p, op, d)
    requires AbsentSays(img, g.cat, g.m, op, Some(v)) && g' == g.(cat := NewRecord(g.cat, p, img.iend, d))
    requires img.iend >= FIRST_REC
    ensures Local(AddRec(img, v, NewRec(op, d)), g', p, Run(op, UnlockIdx(img.iend)))
  {
    hide Hash, CleanKey;
  }

  // ----- the chain head -----

  lemma LinkHeadDone(img: Image, g: Ghost, p: nat, op: Op, off: nat)
    requires Ready(img, g, p, op, LinkHead(off)) && off <= PTR_MAX
    ensures var at := LinkHead(off);
            Done(img, g, p, Run(op, at), Effect(img, op, at), GhostNext(img, g, p, op, at), Run(op, Next(img, op, at)))
  {
    hide CatInv, Geometry, Hash, MapOf, ChainSays, Guar, HeldStep, FixStep, MapStep, SizesOk, CleanKey,
         Ready, Local, SameAt, LinkFront;
    var at := LinkHead(off);
    Unpack(img, g, p, op, at);
    CalmFix(img, g.cat, op.key);
    var h := Hash(op.key);
    var g' := Ghost(LinkFront(g.cat, h, off, op.key), g.m[op.key := op.data]);
    var img' := SetPtr(img, HeadOff(h), off);
    SetPtrGeometry(img, HeadOff(h), off);
    LinkNew(img, g.cat, h, off, op.key, op.data);
    LinkGuar(img, g, p, op, off, g');
    LinkFrontFix(g.cat, h, off, op.key);
    UnlockLocal(img', g', p, op, Code(0));
    LinkRest(img, g, p, op, off, g');
    LinkMap(MapOf(img, g.cat), g.m, MapOf(img', g'.cat), g'.m, op, off);
  }

  lemma LinkFrontFix(cat: Catalog, h: nat, o: nat, key: string)
    requires |cat.chains| == |cat.fix| == NHASH && h < NHASH
    ensures LinkFront(cat, h, o, key).fix == cat.fix && |LinkFront(cat, h, o, key).chains| == NHASH
  {
  }

  lemma LinkMap(cur: map<string, string>, m: map<string, string>, cur': map<string, string>, m': map<string, string>,
                op: Op, off: nat)
    requires op.Store? && cur' == cur[op.key := op.data] && m' == m[op.key := op.data]
    ensures MapStep(cur, m, cur', m', Run(op, LinkHead(off)), Run(op, UnlockChain(Code(0))))
  {
    hide MapStep;
    MapStepAt(cur, m, cur', m', op, LinkHead(off), UnlockChain(Code(0)));
  }

  lemma LinkGuar(img: Image, g: Ghost, p: nat, op: Op, off: nat, g': Ghost)
    requires CatInv(img, g.cat) && op.Store? && |g.cat.chains| == |g.cat.fix| == NHASH
    requires off in g.cat.own && g.cat.own[off] == Held(p)
    requires g' == Ghost(LinkFront(g.cat, Hash(op.key), off, op.key), g.m[op.key := op.data])
    ensures Guar(img, g, SetPtr(img, HeadOff(Hash(op.key)), off), g', p, Run(op, LinkHead(off)))
  {
    hide CatInv, Hash, Guar, MayWrite, Confined;
    LinkConfined(img, g.cat, p, op, off);
    GuarPtr(img, g, p, op, LinkHead(off), HeadOff(Hash(op.key)), off, off, g');
  }

  lemma LinkConfined(img: Image, cat: Catalog, p: nat, op: Op, off: nat)
    requires CatInv(img, cat) && |cat.chains| == |cat.fix| == NHASH && op.Store? && off in cat.own
             && cat.own[off] == Held(p)
    ensures MayWrite(cat, p, Run(op, LinkHead(off)), HeadOff(Hash(op.key)))
    ensures Confined(cat, LinkFront(cat, Hash(op.key), off, op.key), p, Run(op, LinkHead(off)), off)
  {
    HeadIsUnowned(img, cat, Hash(op.key));
    OwnPart(img, cat);
    HeadApart(cat, img.rec.Keys, Hash(op.key));
    hide CatInv, Hash, OwnOk;
  }

  lemma LinkRest(img: Image, g: Ghost, p: nat, op: Op, off: nat, g': Ghost)
    requires op.Store? && Hands(g.cat.own, p, Run(op, LinkHead(off))) && |g.cat.chains| == |g.cat.fix| == NHASH
    requires g.cat.fix[Hash(op.key)] == None
    requires g' == Ghost(LinkFront(g.cat, Hash(op.key), off, op.key), g.m[op.key := op.data])
    ensures HeldStep(g.cat.own, g'.cat.own, p, Run(op, UnlockChain(Code(0))))
    ensures FixStep(g.cat.fix, g'.cat.fix, Run(op, LinkHead(off)), Run(op, UnlockChain(Code(0))))
  {
    hide Hash, HeldStep, FixStep;
    HandsStep(g.cat.own, g'.cat.own, p, Run(op, LinkHead(off)), Run(op, UnlockChain(Code(0))));
    FixMoves(g.cat.fix, g'.cat.fix, op, LinkHead(off), UnlockChain(Code(0)));
  }

  // ----- giving up halfway: the key is gone for good -----

  lemma HaltDone(img: Image, g: Ghost, p: nat, op: Op, at: At)
    requires Ready(img, g, p, op, at) && (at.UnlockDat? || at.LinkHead?) && Next(img, op, at).Halted?
    ensures Done(img, g, p, Run(op, at), Effect(img, op, at), GhostNext(img, g, p, op, at), Run(op, Next(img, op, at)))
  {
    hide CatInv, Geometry, Hash, MapOf, ChainSays, Guar, HeldStep, FixStep, MapStep, SizesOk, CleanKey, LengthOk,
         Ready, Local, SameAt;
    Unpack(img, g, p, op, at);
    CalmFix(img, g.cat, op.key);
    var g', at' := g.(m := g.m - {op.key}), Next(img, op, at);
    LostGuar(img, g, p, op, at);
    HandsStep(g.cat.own, g.cat.own, p, Run(op, at), Run(op, at'));
    FixMoves(g.cat.fix, g.cat.fix, op, at, at');
    LostMap(img, g, op, at, at');
    HaltedLocal(img, g', p, op, at'.why, at'.held);
  }

  lemma HaltedLocal(img: Image, g: Ghost, p: nat, op: Op, why: Why, held: Option<nat>)
    requires why != BadRead && OpOk(op) && |g.cat.chains| == |g.cat.fix| == NHASH
             && (held.Some? ==> Completed(img, op, held.value))
    ensures Local(img, g, p, Run(op, Halted(why, held)))
  {
    hide Completed, CleanKey;
  }

  lemma LostGuar(img: Image, g: Ghost, p: nat, op: Op, at: At)
    requires CatInv(img, g.cat) && AtChain(at) && !op.Fetch?
    ensures Guar(img, g, img, g.(m := g.m - {op.key}), p, Run(op, at))
  {
    hide CatInv, AtChain, WritesChain, AllBlank, KeysSpared;
    ChainSizes(img, g.cat);
    KeysSparedAt(g, g.(m := g.m - {op.key}), op, at);
  }

  lemma LostMap(img: Image, g: Ghost, op: Op, at: At, at': At)
    requires CatInv(img, g.cat) && op.key !in g.cat.loc
    ensures MapStep(MapOf(img, g.cat), g.m, MapOf(img, g.cat), g.m - {op.key}, Run(op, at), Run(op, at'))
  {
    hide CatInv, MapOf, MapStep;
    MissedKey(img, g.cat, op.key);
    MapStepAt(MapOf(img, g.cat), g.m, MapOf(img, g.cat), g.m - {op.key}, op, at, at');
  }
}
