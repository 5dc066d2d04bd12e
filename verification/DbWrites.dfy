/** The steps that write: what each does to the catalog and to the abstract map, and why every
    part of the invariant survives it. */
module DbWrites {
  import opened Links
  import opened Wrappers
  import opened DbCodec
  import opened DbImage
  import opened DbCatalog
  import opened DbProcess
  import opened DbProtocol
  import opened DbFrame
  import opened DbSteps
  import opened DbReads
  import opened DbMoves

  ghost function PosOf(s: seq<nat>, o: nat): (i: nat)
    requires o in s
    ensures i < |s| && s[i] == o
  {
    var i :| 0 <= i < |s| && s[i] == o; i
  }

  /** The move of the catalog and of the abstract map that goes with each step. */
  ghost function GhostNext(img: Image, g: Ghost, p: nat, op: Op, at: At): Ghost {
    var h := Hash(op.key);
    if !(|g.cat.chains| == |g.cat.fix| == NHASH) then g else
    match at
    case BlankData(_, off, _, _) =>
      if off in g.cat.chains[h] then
        Ghost(Unhook(g.cat, p, h, PosOf(g.cat.chains[h], off), op.key), if op.Delete? then g.m - {op.key} else g.m)
      else g
    case SetFree(_, off, _) => g.(cat := PushFree(g.cat, off))
    case Unlink(_, _) => g.(cat := Mend(g.cat, h))
    case TakeFree(_, _, off, _, _) =>
      if off in g.cat.free then g.(cat := DbCatalog.TakeFree(g.cat, p, PosOf(g.cat.free, off))) else g
    case WriteDat(_, d) => g.(cat := NewExtent(g.cat, p, d))
    case UnlockDat(_, _) => if Next(img, op, at).Halted? then g.(m := g.m - {op.key}) else g
    case WriteIdx(_, d, off) => g.(cat := NewRecord(g.cat, p, off, d))
    case LinkHead(off) =>
      if off > PTR_MAX then g.(m := g.m - {op.key})
      else if op.Store? then Ghost(LinkFront(g.cat, h, off, op.key), g.m[op.key := op.data])
      else g
    case Overwrite(_, _) => if op.Store? then g.(m := g.m[op.key := op.data]) else g
    case _ => g
  }

  /** The record in hand, and only that, is owned by p. */
  ghost predicate Hands(own: map<nat, Owner>, p: nat, pc: Pc) {
    && (InHand(pc).Some? ==> InHand(pc).value in own && own[InHand(pc).value] == Held(p))
    && (forall o | o in own && own[o] == Held(p) :: InHand(pc) == Some(o))
  }

  /** All one process needs of the invariant to take a step. */
  ghost predicate Ready(img: Image, g: Ghost, p: nat, op: Op, at: At) {
    && Geometry(img) && CatInv(img, g.cat) && Local(img, g, p, Run(op, at))
    && Hands(g.cat.own, p, Run(op, at))
    && (AtChain(at) && !Gap(Run(op, at), op.key) ==> SameAt(MapOf(img, g.cat), g.m, op.key))
  }

  lemma GetReady(s: State, g: Ghost, p: nat, op: Op, at: At)
    requires Inv(s, g) && p < |s.procs| && s.procs[p] == Run(op, at)
    ensures Ready(s.img, g, p, op, at)
  {
    hide CatInv, Geometry, MapOf, FixOk, Exclusive, Local, MapOk, Hash, InHand, Gap;
    if AtChain(at) && !Gap(Run(op, at), op.key) { KeySettled(s, g, p); }
  }

  lemma ChainSizes(img: Image, cat: Catalog)
    requires CatInv(img, cat)
    ensures |cat.chains| == |cat.fix| == NHASH
  {
  }

  lemma Unpack(img: Image, g: Ghost, p: nat, op: Op, at: At)
    requires Ready(img, g, p, op, at)
    ensures Geometry(img) && CatInv(img, g.cat) && Local(img, g, p, Run(op, at)) && Hands(g.cat.own, p, Run(op, at))
    ensures OpSays(op, at) && ChainSays(img, g.cat, op.key, ChainClaimOf(at))
            && FreeSays(img, g.cat, op, FreeClaimOf(at))
    ensures HeldSays(img, op, HeldClaimOf(at)) && EndSays(img, g.cat, p, op, at, EndClaimOf(at))
    ensures Absent(at) ==> AbsentSays(img, g.cat, g.m, op, HeadVal(at))
    ensures AtChain(at) && !Gap(Run(op, at), op.key) ==> SameAt(MapOf(img, g.cat), g.m, op.key)
    ensures |g.cat.chains| == |g.cat.fix| == NHASH
  {
    ChainSizes(img, g.cat);
    hide CatInv, Geometry, MapOf, ChainSays, FreeSays, HeldSays, EndSays, AbsentSays, OpSays, Hands, SameAt;
  }

  /** What one step must do to every part. */
  ghost predicate Done(img: Image, g: Ghost, p: nat, pc: Pc, img': Image, g': Ghost, pc': Pc) {
    && Geometry(img') && CatInv(img', g'.cat)
    && Guar(img, g, img', g', p, pc)
    && Local(img', g', p, pc')
    && HeldStep(g.cat.own, g'.cat.own, p, pc')
    && FixStep(g.cat.fix, g'.cat.fix, pc, pc')
    && MapStep(MapOf(img, g.cat), g.m, MapOf(img', g'.cat), g'.m, pc, pc')
  }

  // ----- the map -----

  /** Nothing but the operation's own key moves, and that one is settled or in the gap. */
  lemma MapStepAt(cur: map<string, string>, m: map<string, string>,
                  cur': map<string, string>, m': map<string, string>, op: Op, at: At, at': At)
    requires forall k :: k != op.key ==> SameAt(cur', cur, k) && SameAt(m', m, k)
    requires Gap(Run(op, at'), op.key) || SameAt(cur', m', op.key)
    ensures MapStep(cur, m, cur', m', Run(op, at), Run(op, at'))
  {
    hide Absent;
  }

  /** A write that leaves both maps alone. */
  lemma MapStepSame(cur: map<string, string>, m: map<string, string>, op: Op, at: At, at': At)
    requires Gap(Run(op, at), op.key) ==> Gap(Run(op, at'), op.key)
    ensures MapStep(cur, m, cur, m, Run(op, at), Run(op, at'))
  {
    hide Absent;
  }

  // ----- what other processes keep, by kind of write -----

  /** Data in the extent of record o touches no other record's, and no loose extent. */
  lemma DataSpared(img: Image, cat: Catalog, p: nat, o: nat, t: string, cat': Catalog)
    requires CatInv(img, cat) && o in img.rec && (o in cat.own && cat.own[o].Held? ==> cat.own[o].p == p)
    requires cat'.ext == cat.ext && (forall e | e in cat.own && e != o :: e in cat'.own && cat'.own[e] == cat.own[e])
    ensures HeldSpared(img, cat, SetDat(img, img.rec[o].datoff, t), cat', p)
    ensures LooseSpared(img, cat, SetDat(img, img.rec[o].datoff, t), cat', p)
  {
    assert cat.own.Keys == img.rec.Keys;
    hide ChainsOk, FreeOk, OwnOk, LocOk, FreeBlank;
    assert cat.ext[img.rec[o].datoff] == Of(o);
    forall e | e in cat.own && e in img.rec && e != o ensures img.rec[e].datoff != img.rec[o].datoff {
      ExtentsDistinct(img.rec, img.dat, cat.ext, o, e);
    }
  }

  /** Chains of others when the catalog changes at chain h and record o alone, the index file not. */
  lemma ChainsSparedData(img: Image, cat: Catalog, img': Image, cat': Catalog, pc: Pc, o: nat)
    requires CatInv(img, cat) && img'.ptr == img.ptr && img'.rec == img.rec
    requires |cat'.chains| == |cat'.fix| == NHASH
    requires forall h | 0 <= h < NHASH && !WritesChain(pc, h) ::
               cat'.fix[h] == cat.fix[h] && cat'.chains[h] == cat.chains[h]
    requires forall e | e in cat.own && e != o :: e in cat'.own && cat'.own[e] == cat.own[e]
    requires o in cat.own && cat.own[o].Chain? ==>
               WritesChain(pc, cat.own[o].h) || (o in cat'.own && cat'.own[o] == cat.own[o])
    ensures ChainsSpared(img, cat, img', cat', pc)
  {
    ChainSizes(img, cat);
    hide CatInv, WritesChain;
  }

  lemma KeysSparedAt(g: Ghost, g': Ghost, op: Op, at: At)
    requires AtChain(at) && !op.Fetch?
    requires forall k | k != op.key :: (k in g'.cat.loc <==> k in g.cat.loc) && SameAt(g'.m, g.m, k)
    ensures KeysSpared(g, g', Run(op, at))
  {
  }

  /** A write to the data file at record o: everything the others rely on stays. */
  lemma GuarData(img: Image, g: Ghost, p: nat, op: Op, at: At, o: nat, t: string, g': Ghost)
    requires CatInv(img, g.cat) && AtChain(at) && !op.Fetch? && o in img.rec
    requires ChainsSpared(img, g.cat, SetDat(img, img.rec[o].datoff, t), g'.cat, Run(op, at))
    requires o in g.cat.own && g.cat.own[o].Held? ==> g.cat.own[o].p == p
    requires g'.cat.ext == g.cat.ext
             && (forall e | e in g.cat.own && e != o :: e in g'.cat.own && g'.cat.own[e] == g.cat.own[e])
    requires forall k | k != op.key :: (k in g'.cat.loc <==> k in g.cat.loc) && SameAt(g'.m, g.m, k)
    requires WritesFree(Run(op, at)) || g'.cat.free == g.cat.free
    ensures Guar(img, g, SetDat(img, img.rec[o].datoff, t), g', p, Run(op, at))
  {
    DataSpared(img, g.cat, p, o, t, g'.cat);
    KeysSparedAt(g, g', op, at);
    hide CatInv, AtFree, AtChain, ChainsSpared, HeldSpared, LooseSpared, KeysSpared, AllBlank;
  }

  // ----- deletion: the data is blanked -----

  lemma TargetFound(img: Image, cat: Catalog, key: string, prev: nat, off: nat, r: Rec, nxt: nat)
    requires CatInv(img, cat) && ChainSays(img, cat, key, Target(prev, off, r, nxt))
    ensures |cat.chains| == |cat.fix| == NHASH && cat.fix[Hash(key)] == None && off in cat.chains[Hash(key)]
    ensures off in cat.own && cat.own[off] == Chain(Hash(key)) && off in img.rec && img.rec[off] == r && r.key == key
    ensures r.datoff in img.dat && |img.dat[r.datoff]| + 1 == r.datlen && key in cat.loc && cat.loc[key] == off
    ensures prev == CellOf(HeadOff(Hash(key)), cat.chains[Hash(key)], PosOf(cat.chains[Hash(key)], off))
    ensures nxt == Nth(cat.chains[Hash(key)], PosOf(cat.chains[Hash(key)], off) + 1)
  {
    var h := Hash(key);
    hide Hash, Linked;
    var s := cat.chains[h];
    assert NoDup(s);
    var j :| 0 <= j < |s| && s[j] == off && prev == CellOf(HeadOff(h), s, j) && nxt == Nth(s, j + 1);
    ChainElem(img, cat, h, j);
    RecExtent(img, cat, off);
    hide CatInv;
    assert PosOf(s, off) == j;
  }

  /** A step of an operation: hands and owed writes move as the places say. */
  lemma HandsStep(own: map<nat, Owner>, own': map<nat, Owner>, p: nat, pc: Pc, pc': Pc)
    requires Hands(own, p, pc)
    requires forall o | o in own' && own'[o].Held? && own'[o].p == p :: InHand(pc') == Some(o)
    requires InHand(pc').Some? ==> InHand(pc').value in own' && own'[InHand(pc').value] == Held(p)
    requires forall o | o in own && own[o].Held? && own[o].p != p :: o in own' && own'[o] == own[o]
    requires forall o | o in own' && own'[o].Held? && own'[o].p != p :: o in own && own'[o] == own[o]
    ensures HeldStep(own, own', p, pc')
  {
    hide InHand;
  }

  lemma FixMoves(fix: seq<Option<(nat, nat)>>, fix': seq<Option<(nat, nat)>>, op: Op, at: At, at': At)
    requires |fix| == |fix'| == NHASH && AtChain(at)
    requires forall h | 0 <= h < NHASH && h != Hash(op.key) :: fix'[h] == fix[h]
    requires fix'[Hash(op.key)] != None ==> ChainClaimOf(at').Owes? && AtChain(at') && !op.Fetch?
    ensures FixStep(fix, fix', Run(op, at), Run(op, at'))
  {
    hide Hash;
  }

  lemma UnhookLocal(img: Image, g: Ghost, p: nat, op: Op, prev: nat, off: nat, r: Rec, nxt: nat, g': Ghost)
    requires OpSays(op, BlankData(prev, off, r, nxt)) && CatInv(img, g.cat) && Cells(img)
    requires ChainSays(img, g.cat, op.key, Target(prev, off, r, nxt)) && SameAt(MapOf(img, g.cat), g.m, op.key)
    requires g' == GhostNext(img, g, p, op, BlankData(prev, off, r, nxt)) && r.datlen >= 1
    ensures Local(SetDat(img, r.datoff, Blanks(r.datlen - 1)), g', p, Run(op, ReadFree(prev, off, r, nxt)))
  {
    hide CatInv, Hash, MapOf, PlaceOk, ChainSays, Cells;
    var h := Hash(op.key);
    TargetFound(img, g.cat, op.key, prev, off, r, nxt);
    UnhookFacts(img, g.cat, op.key, prev, off, nxt);
    var img' := SetDat(img, r.datoff, Blanks(r.datlen - 1));
    assert ChainSays(img', g'.cat, op.key, Owes(prev, nxt)) by { UnhookOwes(img', g.cat, p, op.key, prev, off, nxt); }
    hide Unhook;
  }

  lemma UnhookOwes(img': Image, cat: Catalog, p: nat, key: string, prev: nat, off: nat, nxt: nat)
    requires |cat.chains| == |cat.fix| == NHASH && off in cat.chains[Hash(key)] && prev != off
    requires prev == CellOf(HeadOff(Hash(key)), cat.chains[Hash(key)], PosOf(cat.chains[Hash(key)], off))
    requires nxt == Nth(cat.chains[Hash(key)], PosOf(cat.chains[Hash(key)], off) + 1)
    requires CellOn(cat.own, Hash(key), prev) && nxt <= PTR_MAX && prev in img'.ptr
    ensures ChainSays(img', Unhook(cat, p, Hash(key), PosOf(cat.chains[Hash(key)], off), key), key, Owes(prev, nxt))
  {
    hide Hash;
  }

  lemma UnhookFacts(img: Image, cat: Catalog, key: string, prev: nat, off: nat, nxt: nat)
    requires CatInv(img, cat) && Cells(img) && |cat.chains| == |cat.fix| == NHASH && cat.fix[Hash(key)] == None
    requires off in cat.chains[Hash(key)] && key in cat.loc && cat.loc[key] == off && off in img.rec
    requires prev == CellOf(HeadOff(Hash(key)), cat.chains[Hash(key)], PosOf(cat.chains[Hash(key)], off))
    requires nxt == Nth(cat.chains[Hash(key)], PosOf(cat.chains[Hash(key)], off) + 1)
    ensures prev != off && prev in img.ptr && off in img.ptr && off <= PTR_MAX && nxt <= PTR_MAX
    ensures CellOn(cat.own, Hash(key), prev) && key in MapOf(img, cat)
    ensures img.rec[off].datoff in img.dat && MapOf(img, cat)[key] == img.dat[img.rec[off].datoff]
  {
    hide CatInv, Hash, MapOf, Cells;
    LiveKeys(img, cat);
    BeforeCell(img, cat, Hash(key), PosOf(cat.chains[Hash(key)], off));
    CellBound(img, prev);
    CellBound(img, off);
    HeadIsNoRecord(img, cat, Hash(key), off);
  }

  lemma CellBound(img: Image, c: nat)
    requires Cells(img) && c in img.ptr
    ensures img.ptr[c] <= PTR_MAX
  {
  }

  lemma HeadIsNoRecord(img: Image, cat: Catalog, h: nat, off: nat)
    requires CatInv(img, cat) && h < NHASH && off in img.rec
    ensures off != HeadOff(h)
  {
    assert off in cat.own;
    assert off >= FIRST_REC;
  }

  lemma GeometryParts(img: Image)
    requires Geometry(img)
    ensures Tiled(img) && Spread(img) && Cells(img) && Extents(img)
  {
    hide Tiled, Spread, Cells, Extents;
  }

  lemma BlankDataDone(img: Image, g: Ghost, p: nat, op: Op, prev: nat, off: nat, r: Rec, nxt: nat)
    requires Ready(img, g, p, op, BlankData(prev, off, r, nxt))
    ensures var at := BlankData(prev, off, r, nxt);
            Done(img, g, p, Run(op, at), Effect(img, op, at), GhostNext(img, g, p, op, at), Run(op, Next(img, op, at)))
  {
    hide CatInv, Geometry, Hash, MapOf, ChainSays, PlaceOk, Guar, HeldStep, FixStep, MapStep, SameAt, Local,
         ChainsSpared, Ready, Hands, Cells, OpSays;
    var at := BlankData(prev, off, r, nxt);
    Unpack(img, g, p, op, at);
    GeometryParts(img);
    TargetFound(img, g.cat, op.key, prev, off, r, nxt);
    var h, t := Hash(op.key), Blanks(r.datlen - 1);
    var i := PosOf(g.cat.chains[h], off);
    var img', g' := Effect(img, op, at), GhostNext(img, g, p, op, at);
    UnhookOk(img, g.cat, p, h, i, t);
    UnhookMap(img, g.cat, p, h, i, t);
    SetDatGeometry(img, r.datoff, t);
    BlankDataGuar(img, g, p, op, at, t);
    UnhookLocal(img, g, p, op, prev, off, r, nxt, g');
    BlankDataMoves(img, g, p, op, at, t);
  }

  lemma BlankDataGuar(img: Image, g: Ghost, p: nat, op: Op, at: At, t: string)
    requires at.BlankData? && CatInv(img, g.cat) && ChainSays(img, g.cat, op.key, ChainClaimOf(at)) && OpSays(op, at)
    ensures Guar(img, g, SetDat(img, at.r.datoff, t), GhostNext(img, g, p, op, at), p, Run(op, at))
  {
    hide CatInv, Hash, ChainSays, PlaceOk, Guar, ChainsSpared;
    TargetFound(img, g.cat, op.key, at.prev, at.off, at.r, at.nxt);
    var g' := GhostNext(img, g, p, op, at);
    ChainsSparedData(img, g.cat, SetDat(img, at.r.datoff, t), g'.cat, Run(op, at), at.off);
    GuarData(img, g, p, op, at, at.off, t, g');
  }

  lemma BlankDataMoves(img: Image, g: Ghost, p: nat, op: Op, at: At, t: string)
    requires at.BlankData? && CatInv(img, g.cat) && ChainSays(img, g.cat, op.key, ChainClaimOf(at)) && OpSays(op, at)
    requires Hands(g.cat.own, p, Run(op, at)) && SameAt(MapOf(img, g.cat), g.m, op.key)
    requires MapOf(SetDat(img, at.r.datoff, t), GhostNext(img, g, p, op, at).cat) == MapOf(img, g.cat) - {op.key}
    ensures var g', at' := GhostNext(img, g, p, op, at), Next(img, op, at);
            && HeldStep(g.cat.own, g'.cat.own, p, Run(op, at'))
            && FixStep(g.cat.fix, g'.cat.fix, Run(op, at), Run(op, at'))
            && MapStep(MapOf(img, g.cat), g.m, MapOf(SetDat(img, at.r.datoff, t), g'.cat), g'.m, Run(op, at),
               Run(op, at'))
  {
    hide CatInv, Hash, MapOf, ChainSays, PlaceOk, HeldStep, FixStep, MapStep;
    TargetFound(img, g.cat, op.key, at.prev, at.off, at.r, at.nxt);
    var g', at' := GhostNext(img, g, p, op, at), Next(img, op, at);
    HandsStep(g.cat.own, g'.cat.own, p, Run(op, at), Run(op, at'));
    FixMoves(g.cat.fix, g'.cat.fix, op, at, at');
    MapStepAt(MapOf(img, g.cat), g.m, MapOf(SetDat(img, at.r.datoff, t), g'.cat), g'.m, op, at, at');
  }

  // ----- overwriting and refilling: data of the same length -----

  lemma OverwriteDone(img: Image, g: Ghost, p: nat, op: Op, off: nat, r: Rec)
    requires Ready(img, g, p, op, Overwrite(off, r))
    ensures var at := Overwrite(off, r);
            Done(img, g, p, Run(op, at), Effect(img, op, at), GhostNext(img, g, p, op, at), Run(op, Next(img, op, at)))
  {
    hide CatInv, Geometry, Hash, MapOf, ChainSays, Guar, HeldStep, FixStep, MapStep, SameAt, Local, ChainsSpared,
         Ready, Hands, Cells;
    var at := Overwrite(off, r);
    Unpack(img, g, p, op, at);
    FoundRec(img, g.cat, op.key, off, r);
    var img', g' := Effect(img, op, at), GhostNext(img, g, p, op, at);
    OverwriteOk(img, g.cat, Hash(op.key), off, op.data);
    SetDatGeometry(img, r.datoff, op.data);
    ChainsSparedData(img, g.cat, img', g'.cat, Run(op, at), off);
    OverwriteRest(img, g, p, op, off, r, g');
  }

  lemma FoundRec(img: Image, cat: Catalog, key: string, off: nat, r: Rec)
    requires CatInv(img, cat) && ChainSays(img, cat, key, OnRec(off, r))
    ensures off in img.rec && img.rec[off] == r && r.key == key && cat.fix[Hash(key)] == None
    ensures off in cat.own && cat.own[off] == Chain(Hash(key)) && r.datoff in img.dat
            && |img.dat[r.datoff]| + 1 == r.datlen
  {
    ChainOwned(img, cat, Hash(key));
    RecExtent(img, cat, off);
    hide CatInv, Hash;
  }

  lemma OverwriteRest(img: Image, g: Ghost, p: nat, op: Op, off: nat, r: Rec, g': Ghost)
    requires CatInv(img, g.cat) && ChainSays(img, g.cat, op.key, OnRec(off, r)) && op.Store? && OpOk(op) && SizesOk(op)
    requires Hands(g.cat.own, p, Run(op, Overwrite(off, r))) && |g.cat.chains| == |g.cat.fix| == NHASH
    requires g' == g.(m := g.m[op.key := op.data])
    requires ChainsSpared(img, g.cat, SetDat(img, r.datoff, op.data), g.cat, Run(op, Overwrite(off, r)))
    requires MapOf(SetDat(img, r.datoff, op.data), g.cat) == MapOf(img, g.cat)[op.key := op.data]
    ensures var img', pc, pc' := SetDat(img, r.datoff, op.data), Run(op, Overwrite(off, r)),
                                 Run(op, UnlockChain(Code(0)));
            && Guar(img, g, img', g', p, pc) && Local(img', g', p, pc')
            && HeldStep(g.cat.own, g'.cat.own, p, pc') && FixStep(g.cat.fix, g'.cat.fix, pc, pc')
            && MapStep(MapOf(img, g.cat), g.m, MapOf(img', g'.cat), g'.m, pc, pc')
  {
    hide CatInv, Hash, MapOf, ChainSays, HeldStep, FixStep, MapStep, Guar, ChainsSpared, Local, CleanKey;
    FoundRec(img, g.cat, op.key, off, r);
    var img', at, at' := SetDat(img, r.datoff, op.data), Overwrite(off, r), UnlockChain(Code(0));
    GuarData(img, g, p, op, at, off, op.data, g');
    HandsStep(g.cat.own, g'.cat.own, p, Run(op, at), Run(op, at'));
    FixMoves(g.cat.fix, g'.cat.fix, op, at, at');
    MapStepAt(MapOf(img, g.cat), g.m, MapOf(img', g'.cat), g'.m, op, at, at');
    UnlockLocal(img', g', p, op, Code(0));
  }

  lemma UnlockLocal(img: Image, g: Ghost, p: nat, op: Op, res: Res)
    requires OpOk(op) && SizesOk(op) && |g.cat.chains| == |g.cat.fix| == NHASH && g.cat.fix[Hash(op.key)] == None
    ensures Local(img, g, p, Run(op, UnlockChain(res)))
  {
    hide Hash;
  }

  lemma ReuseDataDone(img: Image, g: Ghost, p: nat, op: Op, v: nat, off: nat, r: Rec)
    requires Ready(img, g, p, op, ReuseData(v, off, r))
    ensures var at := ReuseData(v, off, r);
            Done(img, g, p, Run(op, at), Effect(img, op, at), GhostNext(img, g, p, op, at), Run(op, Next(img, op, at)))
  {
    hide CatInv, Geometry, Hash, MapOf, ChainSays, Guar, HeldStep, FixStep, MapStep, ChainsSpared,
         Ready, Cells, AllBlank, Local, AbsentSays;
    var at := ReuseData(v, off, r);
    Unpack(img, g, p, op, at);
    RecExtent(img, g.cat, off);
    var img' := SetDat(img, r.datoff, op.data);
    FillHeldOk(img, g.cat, off, op.data);
    SetDatGeometry(img, r.datoff, op.data);
    ChainsSparedData(img, g.cat, img', g.cat, Run(op, at), off);
    GuarData(img, g, p, op, at, off, op.data, g);
    QuietParts(img, g, p, op, at, ReuseIdx(v, off, r));
    FilledLocal(img, g, p, op, v, off, r);
  }

  lemma FilledLocal(img: Image, g: Ghost, p: nat, op: Op, v: nat, off: nat, r: Rec)
    requires OpSays(op, ReuseData(v, off, r)) && ChainSays(img, g.cat, op.key, Calm)
             && HeldSays(img, op, HeldFree(off, r))
    requires AbsentSays(img, g.cat, g.m, op, Some(v))
    ensures Local(SetDat(img, r.datoff, op.data), g, p, Run(op, ReuseIdx(v, off, r)))
  {
    hide Hash, AllBlank, CleanKey;
  }

  /** Steps that keep catalog and map. */
  lemma QuietParts(img: Image, g: Ghost, p: nat, op: Op, at: At, at': At)
    requires Hands(g.cat.own, p, Run(op, at)) && InHand(Run(op, at')) == InHand(Run(op, at)) && AtChain(at)
    requires |g.cat.fix| == NHASH && ChainSays(img, g.cat, op.key, ChainClaimOf(at))
    requires ChainClaimOf(at).Owes? ==> ChainClaimOf(at').Owes? && AtChain(at') && !op.Fetch?
    requires Gap(Run(op, at), op.key) ==> Gap(Run(op, at'), op.key)
    ensures HeldStep(g.cat.own, g.cat.own, p, Run(op, at')) && FixStep(g.cat.fix, g.cat.fix, Run(op, at), Run(op, at'))
    ensures forall cur :: MapStep(cur, g.m, cur, g.m, Run(op, at), Run(op, at'))
  {
    hide Hash, HeldStep, FixStep, MapStep, PlaceOk, WalkOk, CellOn, Gap;
    HandsStep(g.cat.own, g.cat.own, p, Run(op, at), Run(op, at'));
    FixMoves(g.cat.fix, g.cat.fix, op, at, at');
    forall cur ensures MapStep(cur, g.m, cur, g.m, Run(op, at), Run(op, at')) { MapStepSame(cur, g.m, op, at, at'); }
  }
}
