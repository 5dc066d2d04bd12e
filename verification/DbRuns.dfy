/** Every step of every process keeps the invariant; so does every run. */
module DbRuns {
  import opened Wrappers
  import opened DbCodec
  import opened DbImage
  import opened DbCatalog
  import opened DbListing
  import opened DbProcess
  import opened DbProtocol
  import opened DbFrame
  import opened DbSteps
  import opened DbReads
  import opened DbWrites
  import opened DbRelinks
  import opened DbAppends

  // ----- the steps of one operation -----

  lemma WriteDone(img: Image, g: Ghost, p: nat, op: Op, at: At)
    requires Ready(img, g, p, op, at) && !Quiet(img, op, at) && !at.Halted?
    ensures Done(img, g, p, Run(op, at), Effect(img, op, at), GhostNext(img, g, p, op, at), Run(op, Next(img, op, at)))
  {
    hide Ready, Done, GhostNext, Effect;
    match at {
      case BlankData(prev, off, r, nxt) => BlankDataDone(img, g, p, op, prev, off, r, nxt);
      case BlankIdx(prev, off, r, nxt, fr) => BlankIdxDone(img, g, p, op, prev, off, r, nxt, fr);
      case SetFree(prev, off, nxt) => SetFreeDone(img, g, p, op, prev, off, nxt);
      case Unlink(prev, nxt) => UnlinkDone(img, g, p, op, prev, nxt);
      case TakeFree(v, prev, off, r, nxt) => TakeFreeDone(img, g, p, op, v, prev, off, r, nxt);
      case ReuseData(v, off, r) => ReuseDataDone(img, g, p, op, v, off, r);
      case ReuseIdx(v, off, r) => ReuseIdxDone(img, g, p, op, v, off, r);
      case WriteDat(v, d) => WriteDatDone(img, g, p, op, v, d);
      case WriteIdx(v, d, off) => WriteIdxDone(img, g, p, op, v, d, off);
      case LinkHead(off) => if off > PTR_MAX { HaltDone(img, g, p, op, at); } else { LinkHeadDone(img, g, p, op, off); }
      case Overwrite(off, r) => OverwriteDone(img, g, p, op, off, r);
      case UnlockDat(v, d) => HaltDone(img, g, p, op, at);
      case _ =>
    }
  }

  lemma WriteStep(s: State, g: Ghost, p: nat, op: Op, at: At)
    requires Inv(s, g) && p < |s.procs| && s.procs[p] == Run(op, at) && !Quiet(s.img, op, at)
    requires CompatibleWithOthers(s.procs, p, Run(op, Next(s.img, op, at)))
    ensures Inv(After(s, p, Effect(s.img, op, at), Run(op, Next(s.img, op, at))), GhostNext(s.img, g, p, op, at))
  {
    GetReady(s, g, p, op, at);
    hide Inv, Ready, GhostNext, Effect, Next, CompatibleWithOthers, Geometry, CatInv, Guar, Local, HeldStep, FixStep,
         MapStep;
    WriteDone(s.img, g, p, op, at);
    Assemble(s, g, p, Effect(s.img, op, at), GhostNext(s.img, g, p, op, at), Run(op, Next(s.img, op, at)));
  }

  lemma LockChainNext(img: Image, op: Op)
    ensures Next(img, op, LockChain) == ReadHead
  {
  }

  lemma QuietLocal(s: State, g: Ghost, p: nat, op: Op, at: At)
    requires Inv(s, g) && p < |s.procs| && s.procs[p] == Run(op, at) && Quiet(s.img, op, at)
    requires !at.Returned? && !at.Halted?
    requires CompatibleWithOthers(s.procs, p, Run(op, Next(s.img, op, at)))
    ensures Local(s.img, g, p, Run(op, Next(s.img, op, at)))
  {
    hide CatInv, Geometry, MapOf, Local, ChainSays, FreeSays, HeldSays, EndSays, AbsentSays, OpSays, Ready, Hash,
         CompatibleWithOthers, SameAt, Tiled, Spread, Cells, Extents, Inv, Next, Hands;
    GetReady(s, g, p, op, at);
    Unpack(s.img, g, p, op, at);
    GeometryParts(s.img);
    match at {
      case Begin => BeginLocal(s.img, g, p, op);
      case LockChain =>
        LockChainNext(s.img, op);
        NothingOwed(s, g, p, op);
        LockChainLocal(s.img, g, p, op);
      case ReadHead => ReadHeadLocal(s.img, g, p, op);
      case Walk(prev, off) => WalkLocal(s.img, g, p, op, prev, off);
      case ReadData(off, r) => ReadDataLocal(s.img, g, p, op, off, r);
      case ReadFree(_, _, _, _) => ReadFreeLocal(s.img, g, p, op, at);
      case ReadPtrVal => PtrValLocal(s.img, g, p, op, at);
      case RereadPtrVal => PtrValLocal(s.img, g, p, op, at);
      case ReadFreeHead(v) => ReadFreeHeadLocal(s.img, g, p, op, v);
      case WalkFree(v, prev, off) => WalkFreeLocal(s.img, g, p, op, v, prev, off);
      case _ => LockLocal(s.img, g, p, op, at);
    }
  }

  /** Reading and locking keep what is in hand, owed, or missing. */
  lemma QuietNext(img: Image, g: Ghost, p: nat, op: Op, at: At)
    requires Local(img, g, p, Run(op, at)) && Quiet(img, op, at) && !at.Returned? && !at.Halted?
    requires Local(img, g, p, Run(op, Next(img, op, at)))
    ensures InHand(Run(op, Next(img, op, at))) == InHand(Run(op, at))
    ensures OwesFix(Run(op, at)) ==> OwesFix(Run(op, Next(img, op, at)))
    ensures forall k :: Gap(Run(op, at), k) ==> Gap(Run(op, Next(img, op, at)), k)
    ensures GhostNext(img, g, p, op, at) == g
  {
    hide Hash, ChainSays, FreeSays, HeldSays, EndSays, AbsentSays, LengthOk, AllBlank;
  }

  lemma RunStep(s: State, g: Ghost, p: nat, op: Op, at: At)
    requires Inv(s, g) && p < |s.procs| && s.procs[p] == Run(op, at) && !at.Returned? && !at.Halted?
    requires CompatibleWithOthers(s.procs, p, Run(op, Next(s.img, op, at)))
    ensures Inv(After(s, p, Effect(s.img, op, at), Run(op, Next(s.img, op, at))), GhostNext(s.img, g, p, op, at))
  {
    if Quiet(s.img, op, at) {
      hide CatInv, Geometry, MapOf, MapOk, FixOk, HeldOk, Local, CompatibleWithOthers, Next, GhostNext, Absent;
      QuietLocal(s, g, p, op, at);
      assert Local(s.img, g, p, s.procs[p]);
      QuietNext(s.img, g, p, op, at);
      assert Effect(s.img, op, at) == s.img;
      QuietStep(s, g, p, Run(op, Next(s.img, op, at)));
    } else {
      hide Inv, GhostNext, Effect, Next, CompatibleWithOthers;
      WriteStep(s, g, p, op, at);
    }
  }

  // ----- db_nextrec -----

  lemma ScanLocal(img: Image, g: Ghost, p: nat, sc: ScanAt)
    requires Geometry(img) && CatInv(img, g.cat) && Local(img, g, p, Scan(sc))
    ensures Local(img, g, p, Scan(ScanNext(img, sc)))
  {
    hide CatInv, AllBlank, Geometry, BodyLen;
    if sc.ScanRead? || sc.ScanData? {
      if sc.pos in img.rec { AfterRecord(img, g.cat, sc.pos); }
    }
  }

  lemma AfterRecord(img: Image, cat: Catalog, o: nat)
    requires Geometry(img) && CatInv(img, cat) && o in img.rec
    ensures img.rec[o].datoff in img.dat && Boundary(img, RecEnd(img, o))
  {
    hide Tiled, Spread, Cells, Extents, CatInv, BodyLen;
    NextBoundary(img, o);
    RecExtent(img, cat, o);
  }

  lemma ScanStepKeeps(s: State, g: Ghost, p: nat, sc: ScanAt)
    requires Inv(s, g) && p < |s.procs| && s.procs[p] == Scan(sc)
    requires CompatibleWithOthers(s.procs, p, Scan(ScanNext(s.img, sc)))
    ensures Inv(After(s, p, s.img, Scan(ScanNext(s.img, sc))), g)
  {
    hide CatInv, Geometry, MapOf, MapOk, FixOk, HeldOk, Local, CompatibleWithOthers, ScanNext;
    assert Local(s.img, g, p, s.procs[p]);
    ScanLocal(s.img, g, p, sc);
    QuietStep(s, g, p, Scan(ScanNext(s.img, sc)));
  }

  // ----- all steps -----

  lemma InvokeKeeps(s: State, g: Ghost, p: nat, pc': Pc)
    requires Inv(s, g) && p < |s.procs| && Resting(s.procs[p]) && Invoked(s.img, pc')
    ensures Inv(After(s, p, s.img, pc'), g)
  {
    hide CatInv, Geometry, MapOf, MapOk, FixOk, HeldOk, Local, Gap, Resting, Invoked, InHand, OwesFix,
         CompatibleWithOthers;
    ChainSizes(s.img, g.cat);
    InvokedAnew(s.img, g, p, pc', s.procs);
    RestingFree(s.procs[p]);
    QuietStep(s, g, p, pc');
  }

  lemma InvokedAnew(img: Image, g: Ghost, p: nat, pc': Pc, procs: seq<Pc>)
    requires Invoked(img, pc') && |g.cat.chains| == |g.cat.fix| == NHASH
    ensures Local(img, g, p, pc') && InHand(pc') == None && CompatibleWithOthers(procs, p, pc')
  {
    hide Hash, CleanKey;
  }

  lemma RestingFree(pc: Pc)
    requires Resting(pc)
    ensures InHand(pc) == None && !OwesFix(pc) && forall k :: !Gap(pc, k)
  {
  }

  /** The catalog and the abstract map after a step of process p. */
  ghost function GhostStep(s: State, g: Ghost, p: nat): Ghost
    requires p < |s.procs|
  {
    if s.procs[p].Run? && !Resting(s.procs[p]) then GhostNext(s.img, g, p, s.procs[p].op, s.procs[p].at) else g
  }

  /** Every step keeps the invariant. */
  lemma StepKeeps(s: State, g: Ghost, s': State, p: nat)
    requires Inv(s, g) && Step(s, s', p)
    ensures Inv(s', GhostStep(s, g, p))
  {
    hide Inv, Effect, Next, GhostNext, CompatibleWithOthers, ScanNext, Invoked;
    if Resting(s.procs[p]) {
      InvokeKeeps(s, g, p, s'.procs[p]);
    } else {
      match s.procs[p] {
        case Run(op, at) => RunStep(s, g, p, op, at);
        case Scan(sc) => ScanStepKeeps(s, g, p, sc);
      }
    }
  }

  // ----- runs -----

  /** A new database and any number of processes that have not called it yet. */
  ghost predicate Initial(s: State) {
    s.img == EmptyImage() && forall p | 0 <= p < |s.procs| :: s.procs[p] == Idle
  }

  lemma InitialInv(s: State)
    requires Initial(s)
    ensures Inv(s, Ghost(EmptyCatalog(), map[]))
  {
    hide CatInv, Geometry, MapOf;
    EmptyShape();
    EmptyLists();
    EmptyMap();
  }

  lemma EmptyMap()
    ensures MapOf(EmptyImage(), EmptyCatalog()) == map[]
    ensures EmptyCatalog().own == map[] && |EmptyCatalog().fix| == NHASH
            && forall h | 0 <= h < NHASH :: EmptyCatalog().fix[h] == None
  {
  }
}
