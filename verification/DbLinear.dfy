/** Linearizability: seen from outside, every fetch, delete and store takes effect on a finite map
    at one instant between its call and its return. */
module DbLinear {
  import opened DbCodec
  import opened DbImage
  import opened DbCatalog
  import opened DbListing
  import opened DbProcess
  import opened DbProtocol
  import opened DbReads
  import opened DbWrites
  import opened DbRuns

  // ----- the specification -----

  /** What an operation does to the map, and its return value. */
  function Apply(op: Op, m: map<string, string>): (map<string, string>, Res) {
    match op
    case Fetch(k) => (m, if k in m then Hit(m[k]) else Miss)
    case Delete(k) => if k in m then (m - {k}, Code(0)) else (m, Code(-1))
    case Store(k, d, flag) =>
      if !FlagOk(flag) then (m, Code(-1))
      else if flag == DB_INSERT && k in m then (m, Code(1))
      else if flag == DB_REPLACE && k !in m then (m, Code(-1))
      else (m[k := d], Code(0))
  }

  datatype Phase = Rest | Pending(op: Op) | Decided(op: Op, res: Res) | Replied(op: Op, res: Res) | Lost(op: Op)

  /** The map, where each process is, and how long the index file and the data file are. */
  datatype Spec = Spec(m: map<string, string>, phases: seq<Phase>, isize: nat, dsize: nat)

  predicate Call(a: Spec, b: Spec, x: Phase, y: Phase) {
    (x.Rest? || x.Replied?) && (y.Pending? || y.Rest?) && b.m == a.m
  }

  /** The one instant at which the operation happens. */
  predicate Commit(a: Spec, b: Spec, x: Phase, y: Phase) {
    x.Pending? && y.Decided? && y.op == x.op && (b.m, y.res) == Apply(x.op, a.m)
  }

  predicate Reply(a: Spec, b: Spec, x: Phase, y: Phase) {
    x.Decided? && y == Replied(x.op, x.res) && b.m == a.m
  }

  /** The files have no room for the record of this store: the index file has outgrown its pointers, or
      some offset the data file has reached makes the record too long (or too short). */
  ghost predicate NoRoom(op: Op, isize: nat, dsize: nat)
    requires op.Store?
  {
    isize > PTR_MAX || exists d: nat :: d < dsize && !LengthOk(NewRec(op, d))
  }

  /** What makes a store exit the process, and what that costs: nothing when the data length is refused at
      the start; otherwise the old data of the key, which had another length. */
  ghost predicate Dies(op: Op, m: map<string, string>, m': map<string, string>, isize: nat, dsize: nat)
    requires op.Store?
  {
    if !SizesOk(op) then FlagOk(op.flag) && m' == m
    else
      && NoRoom(op, isize, dsize) && Apply(op, m).1 == Code(0) && m' == m - {op.key}
      && (op.key in m ==> |m[op.key]| != |op.data|)
  }

  /** A store that exits the process never happens. */
  ghost predicate Loss(a: Spec, b: Spec, x: Phase, y: Phase) {
    x.Pending? && x.op.Store? && y == Lost(x.op) && Dies(x.op, a.m, b.m, a.isize, a.dsize)
  }

  /** Files only grow, and only a store under way makes them. */
  predicate Sized(a: Spec, b: Spec, x: Phase) {
    && a.isize <= b.isize && a.dsize <= b.dsize
    && (a.isize < b.isize || a.dsize < b.dsize ==> x.Pending? && x.op.Store?)
  }

  /** One step of the atomic map. */
  ghost predicate SpecStep(a: Spec, b: Spec, p: nat) {
    && p < |a.phases| && |b.phases| == |a.phases| && b.phases == a.phases[p := b.phases[p]]
    && Sized(a, b, a.phases[p])
    && (|| (b.m == a.m && b.phases == a.phases)
        || Call(a, b, a.phases[p], b.phases[p])
        || Commit(a, b, a.phases[p], b.phases[p])
        || Reply(a, b, a.phases[p], b.phases[p])
        || Loss(a, b, a.phases[p], b.phases[p]))
  }

  // ----- the abstraction -----

  function PhaseAt(op: Op, at: At): Phase {
    match at
    case UnlockChain(res) => Decided(op, res)
    case Returning(res) => Decided(op, res)
    case Returned(res) => Replied(op, res)
    case Halted(_, _) => Lost(op)
    case _ => if op.Delete? && (ChainClaimOf(at).Owes? || at.UnlockFreeDel?) then Decided(op, Code(0)) else Pending(op)
  }

  function PhaseOf(pc: Pc): Phase { if pc.Run? then PhaseAt(pc.op, pc.at) else Rest }

  function Phases(procs: seq<Pc>): seq<Phase> { seq(|procs|, i requires 0 <= i < |procs| => PhaseOf(procs[i])) }

  ghost function View(s: State, g: Ghost): Spec { Spec(g.m, Phases(s.procs), s.img.iend, s.img.dend) }

  /** What one step of an operation amounts to. */
  ghost predicate Moves(img: Image, m: map<string, string>, m': map<string, string>, x: Phase, y: Phase) {
    || (m' == m && x == y)
    || (x.Pending? && y.Decided? && y.op == x.op && (m', y.res) == Apply(x.op, m))
    || (x.Decided? && y == Replied(x.op, x.res) && m' == m)
    || (x.Pending? && x.op.Store? && y == Lost(x.op) && Dies(x.op, m, m', img.iend, img.dend))
  }

  // ----- places where the operation is decided -----

  lemma MissMoves(img: Image, g: Ghost, p: nat, op: Op, prev: nat)
    requires OpSays(op, Walk(prev, 0)) && ChainSays(img, g.cat, op.key, AtWalk(prev, 0)) && CatInv(img, g.cat)
    requires SameAt(MapOf(img, g.cat), g.m, op.key)
    ensures Moves(img, g.m, g.m, Pending(op), PhaseAt(op, OnMiss(op)))
  {
    hide Hash, MapOf, CatInv, ChainSays;
    MissLocal(img, g, p, op, prev);
  }

  lemma FoundInMap(img: Image, g: Ghost, key: string, off: nat)
    requires CatInv(img, g.cat) && |g.cat.chains| == NHASH && off in g.cat.chains[Hash(key)] && off in img.rec
             && img.rec[off].key == key
    requires SameAt(MapOf(img, g.cat), g.m, key)
    ensures key in g.m && img.rec[off].datoff in img.dat && g.m[key] == img.dat[img.rec[off].datoff]
  {
    assert key in g.cat.loc && g.cat.loc[key] == off;
    hide CatInv, Hash, MapOf;
    LiveKeys(img, g.cat);
  }

  lemma MatchMoves(img: Image, g: Ghost, op: Op, prev: nat, off: nat)
    requires OpSays(op, Walk(prev, off)) && ChainSays(img, g.cat, op.key, AtWalk(prev, off)) && CatInv(img, g.cat)
             && off != 0
    requires SameAt(MapOf(img, g.cat), g.m, op.key)
    requires off in img.rec && off in img.ptr && img.rec[off].key == op.key
    ensures Moves(img, g.m, g.m, Pending(op), PhaseAt(op, OnMatch(op, prev, off, img.rec[off], img.ptr[off])))
  {
    hide Hash, MapOf, CatInv, ChainSays, PlaceOk, WalkOk;
    WalkReached(img, g, op, prev, off);
    ChainSizes(img, g.cat);
    FoundInMap(img, g, op.key, off);
  }

  lemma WalkMoves(img: Image, g: Ghost, p: nat, op: Op, prev: nat, off: nat)
    requires Ready(img, g, p, op, Walk(prev, off))
    ensures Moves(img, g.m, g.m, Pending(op), PhaseAt(op, Next(img, op, Walk(prev, off))))
  {
    hide Ready, CatInv, Geometry, Local, OpSays, ChainSays, FreeSays, HeldSays, EndSays, AbsentSays, MapOf, SameAt,
         Hash, Moves;
    Unpack(img, g, p, op, Walk(prev, off));
    if off == 0 {
      MissMoves(img, g, p, op, prev);
    } else {
      WalkReached(img, g, op, prev, off);
      if img.rec[off].key == op.key {
        MatchMoves(img, g, op, prev, off);
      } else {
        assert Moves(img, g.m, g.m, Pending(op), Pending(op)) by { SameMoves(img, g.m, Pending(op)); }
      }
    }
  }

  lemma SameMoves(img: Image, m: map<string, string>, x: Phase)
    ensures Moves(img, m, m, x, x)
  {
  }

  lemma ReadDataMoves(img: Image, g: Ghost, p: nat, op: Op, off: nat, r: Rec)
    requires Ready(img, g, p, op, ReadData(off, r))
    ensures Moves(img, g.m, g.m, Pending(op), PhaseAt(op, Next(img, op, ReadData(off, r))))
  {
    hide Ready, CatInv, Geometry, Local, ChainSays, FreeSays, HeldSays, EndSays, AbsentSays, MapOf, Hash;
    Unpack(img, g, p, op, ReadData(off, r));
    FoundData(img, g, op.key, off, r);
  }

  lemma BlankDataMoves(img: Image, g: Ghost, p: nat, op: Op, prev: nat, off: nat, r: Rec, nxt: nat)
    requires Ready(img, g, p, op, BlankData(prev, off, r, nxt))
    ensures var at := BlankData(prev, off, r, nxt);
            Moves(img, g.m, GhostNext(img, g, p, op, at).m, Pending(op), PhaseAt(op, Next(img, op, at)))
  {
    hide Ready, CatInv, Geometry, Local, ChainSays, FreeSays, HeldSays, EndSays, AbsentSays, MapOf, Hash;
    Unpack(img, g, p, op, BlankData(prev, off, r, nxt));
    TargetFound(img, g.cat, op.key, prev, off, r, nxt);
    FoundInMap(img, g, op.key, off);
  }

  lemma OverwriteMoves(img: Image, g: Ghost, p: nat, op: Op, off: nat, r: Rec)
    requires Ready(img, g, p, op, Overwrite(off, r))
    ensures var at := Overwrite(off, r);
            Moves(img, g.m, GhostNext(img, g, p, op, at).m, Pending(op), PhaseAt(op, Next(img, op, at)))
  {
    hide Ready, CatInv, Geometry, Local, ChainSays, FreeSays, HeldSays, EndSays, AbsentSays, MapOf, Hash;
    Unpack(img, g, p, op, Overwrite(off, r));
    FoundData(img, g, op.key, off, r);
  }

  lemma LinkHeadMoves(img: Image, g: Ghost, p: nat, op: Op, off: nat)
    requires Ready(img, g, p, op, LinkHead(off))
    ensures var at := LinkHead(off);
            Moves(img, g.m, GhostNext(img, g, p, op, at).m, Pending(op), PhaseAt(op, Next(img, op, at)))
  {
    hide Ready, CatInv, Geometry, Local, ChainSays, FreeSays, EndSays, MapOf, Hash, CleanKey, LengthOk;
    Unpack(img, g, p, op, LinkHead(off));
    EndPast(img, off);
  }

  /** Every record starts before the end of the index file, every extent before that of the data file. */
  lemma EndPast(img: Image, o: nat)
    requires Geometry(img)
    ensures o in img.rec ==> o < img.iend
    ensures o in img.dat ==> o < img.dend
  {
    hide Tiled, Cells, DataOk, BodyLen;
  }

  lemma UnlockDatMoves(img: Image, g: Ghost, p: nat, op: Op, v: nat, d: nat)
    requires Ready(img, g, p, op, UnlockDat(v, d))
    ensures var at := UnlockDat(v, d);
            Moves(img, g.m, GhostNext(img, g, p, op, at).m, Pending(op), PhaseAt(op, Next(img, op, at)))
  {
    hide Ready, CatInv, Geometry, Local, ChainSays, FreeSays, HeldSays, MapOf, Hash, CleanKey, LengthOk;
    Unpack(img, g, p, op, UnlockDat(v, d));
    EndPast(img, d);
  }

  lemma OtherMoves(img: Image, g: Ghost, p: nat, op: Op, at: At)
    requires OpSays(op, at) && !at.Returned? && !at.Halted?
    requires Next(img, op, at).Halted? ==> Next(img, op, at).why != BadRead
    requires !at.Walk? && !at.ReadData? && !at.BlankData? && !at.Overwrite? && !at.LinkHead? && !at.UnlockDat?
    ensures Moves(img, g.m, GhostNext(img, g, p, op, at).m, PhaseAt(op, at), PhaseAt(op, Next(img, op, at)))
  {
    if at.Begin? {
      BeginMoves(img, g, p, op);
    } else {
      hide GhostNext, Next, PhaseAt, OpSays;
      SameMap(img, g, p, op, at);
      SamePhase(img, op, at);
    }
  }

  lemma SameMap(img: Image, g: Ghost, p: nat, op: Op, at: At)
    requires !at.BlankData? && !at.Overwrite? && !at.LinkHead? && !at.UnlockDat?
    ensures GhostNext(img, g, p, op, at).m == g.m
  {
    hide Hash, Next;
  }

  /** Elsewhere a step decides nothing, or returns what is decided. */
  lemma SamePhase(img: Image, op: Op, at: At)
    requires OpSays(op, at) && !at.Returned? && !at.Halted?
    requires Next(img, op, at).Halted? ==> Next(img, op, at).why != BadRead
    requires !at.Walk? && !at.ReadData? && !at.BlankData? && !at.Overwrite? && !at.LinkHead? && !at.UnlockDat?
             && !at.Begin?
    ensures var x, y := PhaseAt(op, at), PhaseAt(op, Next(img, op, at));
            x == y || (x.Decided? && y == Replied(x.op, x.res))
  {
    hide Hash, LengthOk, CleanKey, SizesOk, FlagOk;
  }

  lemma BeginMoves(img: Image, g: Ghost, p: nat, op: Op)
    ensures Moves(img, g.m, GhostNext(img, g, p, op, Begin).m, Pending(op), PhaseAt(op, Next(img, op, Begin)))
  {
  }

  lemma ReadingKeeps(img: Image, g: Ghost, p: nat, op: Op, at: At)
    requires at.Walk? || at.ReadData?
    ensures GhostNext(img, g, p, op, at) == g && PhaseAt(op, at) == Pending(op)
  {
  }

  lemma NextArgs(s: State, g: Ghost, p: nat, op: Op, at: At)
    requires Inv(s, g) && p < |s.procs| && s.procs[p] == Run(op, at) && !at.Returned? && !at.Halted?
    requires CompatibleWithOthers(s.procs, p, Run(op, Next(s.img, op, at)))
    ensures Next(s.img, op, at).Halted? ==> Next(s.img, op, at).why != BadRead
  {
    hide Next, GhostNext, Effect, CompatibleWithOthers, CatInv, Geometry, HeldOk, FixOk, MapOk, MapOf, OpOk, SizesOk,
         ChainSays, FreeSays, HeldSays, EndSays, AbsentSays;
    RunStep(s, g, p, op, at);
    var s' := After(s, p, Effect(s.img, op, at), Run(op, Next(s.img, op, at)));
    assert Local(s'.img, GhostNext(s.img, g, p, op, at), p, s'.procs[p]);
  }

  lemma RunMoves(s: State, g: Ghost, p: nat, op: Op, at: At)
    requires Inv(s, g) && p < |s.procs| && s.procs[p] == Run(op, at) && !at.Returned? && !at.Halted?
    requires CompatibleWithOthers(s.procs, p, Run(op, Next(s.img, op, at)))
    ensures Moves(s.img, g.m, GhostNext(s.img, g, p, op, at).m, PhaseAt(op, at), PhaseAt(op, Next(s.img, op, at)))
  {
    hide Ready, Inv, Next, GhostNext, Local, Moves, CompatibleWithOthers, OpSays, ChainSays, FreeSays, HeldSays,
         EndSays, AbsentSays, CatInv, Geometry, MapOf, SameAt, Hands;
    GetReady(s, g, p, op, at);
    Unpack(s.img, g, p, op, at);
    NextArgs(s, g, p, op, at);
    match at {
      case Walk(prev, off) =>
        ReadingKeeps(s.img, g, p, op, at);
        WalkMoves(s.img, g, p, op, prev, off);
      case ReadData(off, r) =>
        ReadingKeeps(s.img, g, p, op, at);
        ReadDataMoves(s.img, g, p, op, off, r);
      case BlankData(prev, off, r, nxt) => BlankDataMoves(s.img, g, p, op, prev, off, r, nxt);
      case Overwrite(off, r) => OverwriteMoves(s.img, g, p, op, off, r);
      case LinkHead(off) => LinkHeadMoves(s.img, g, p, op, off);
      case UnlockDat(v, d) => UnlockDatMoves(s.img, g, p, op, v, d);
      case _ => OtherMoves(s.img, g, p, op, at);
    }
  }

  // ----- the refinement -----

  lemma ViewAfter(s: State, g: Ghost, p: nat, img': Image, pc': Pc, g': Ghost)
    requires p < |s.procs|
    ensures View(After(s, p, img', pc'), g') == Spec(g'.m, Phases(s.procs)[p := PhaseOf(pc')], img'.iend, img'.dend)
  {
    hide PhaseOf;
    assert Phases(s.procs[p := pc']) == Phases(s.procs)[p := PhaseOf(pc')];
  }

  lemma MovesStep(img: Image, a: Spec, b: Spec, p: nat, y: Phase)
    requires p < |a.phases| && b.phases == a.phases[p := y] && Moves(img, a.m, b.m, a.phases[p], y)
    requires a.isize == img.iend && a.dsize == img.dend && Sized(a, b, a.phases[p])
    ensures SpecStep(a, b, p)
  {
    if b.m == a.m && a.phases[p] == y { assert b.phases == a.phases; }
  }

  /** Only the two appends make a file longer. */
  lemma Lengths(img: Image, op: Op, at: At)
    requires (at.WriteDat? ==> at.d == img.dend) && (at.WriteIdx? ==> at.off == img.iend)
    ensures var img' := Effect(img, op, at);
            && img.iend <= img'.iend && img.dend <= img'.dend
            && (img.iend < img'.iend || img.dend < img'.dend ==> op.Store? && (at.WriteDat? || at.WriteIdx?))
  {
    hide Hash, BodyLen;
  }

  lemma RunSized(s: State, g: Ghost, p: nat, op: Op, at: At)
    requires Inv(s, g) && p < |s.procs| && s.procs[p] == Run(op, at)
    ensures var img' := Effect(s.img, op, at);
            && s.img.iend <= img'.iend && s.img.dend <= img'.dend
            && (s.img.iend < img'.iend || s.img.dend < img'.dend ==>
                  PhaseAt(op, at).Pending? && PhaseAt(op, at).op.Store?)
  {
    hide Ready, Inv, Effect, Local, OpSays, ChainSays, FreeSays, HeldSays, AbsentSays, CatInv, Geometry, MapOf,
         SameAt, Hands, LengthOk, LooseSays;
    GetReady(s, g, p, op, at);
    Unpack(s.img, g, p, op, at);
    Lengths(s.img, op, at);
  }

  /** Every step of the system is a step of the atomic map, or none. */
  lemma StepRefines(s: State, g: Ghost, s': State, p: nat)
    requires Inv(s, g) && Step(s, s', p)
    ensures SpecStep(View(s, g), View(s', GhostStep(s, g, p)), p)
  {
    hide Inv, Next, Effect, GhostNext, Moves, CompatibleWithOthers, PhaseAt, SpecStep;
    var g' := GhostStep(s, g, p);
    ViewAfter(s, g, p, s'.img, s'.procs[p], g');
    match s.procs[p] {
      case Run(op, at) =>
        if at.Returned? {
          CallStep(s, g, s', p);
        } else {
          RunMoves(s, g, p, op, at);
          RunSized(s, g, p, op, at);
          MovesStep(s.img, View(s, g), View(s', g'), p, PhaseOf(s'.procs[p]));
        }
      case _ => CallStep(s, g, s', p);
    }
  }

  lemma CallStep(s: State, g: Ghost, s': State, p: nat)
    requires Step(s, s', p) && (!s.procs[p].Run? || s.procs[p].at.Returned?)
    ensures SpecStep(View(s, g), View(s', g), p)
  {
    hide Next, Effect, CompatibleWithOthers, Compatible, CleanKey, ScanNext;
    ViewAfter(s, g, p, s'.img, s'.procs[p], g);
    if s.procs[p].Scan? && !Resting(s.procs[p]) { assert View(s', g) == View(s, g); }
  }

  // ----- runs -----

  /** A run: each state follows from the one before by a step of some process. */
  ghost predicate IsRun(run: seq<State>, who: seq<nat>) {
    && |run| == |who| + 1 && Initial(run[0])
    && forall i {:trigger who[i]} | 0 <= i < |who| :: Step(run[i], run[i + 1], who[i])
  }

  lemma RunPrefix(run: seq<State>, who: seq<nat>, n: nat)
    requires IsRun(run, who) && n <= |who|
    ensures IsRun(run[..n + 1], who[..n])
  {
    forall i | 0 <= i < n ensures Step(run[..n + 1][i], run[..n + 1][i + 1], who[..n][i]) {
      assert Step(run[i], run[i + 1], who[i]);
    }
  }

  /** Beside each state of the run there is an abstract map, at first empty, such that the invariant
      holds throughout and each step of the run is a step of the atomic map. */
  ghost predicate Explains(run: seq<State>, who: seq<nat>, gs: seq<Ghost>) {
    && |run| == |who| + 1 == |gs| && gs[0].m == map[]
    && (forall i | 0 <= i < |run| :: Inv(run[i], gs[i]))
    && (forall i {:trigger who[i]} | 0 <= i < |who| ::
            SpecStep(View(run[i], gs[i]), View(run[i + 1], gs[i + 1]), who[i]))
  }

  /** Every run of any number of processes is a run of the atomic map. */
  lemma {:induction false} Linearizable(run: seq<State>, who: seq<nat>)
    requires IsRun(run, who)
    ensures exists gs :: Explains(run, who, gs)
    decreases |who|
  {
    hide Inv, SpecStep, View, Step, Initial;
    if who == [] {
      InitialInv(run[0]);
      assert Explains(run, who, [Ghost(EmptyCatalog(), map[])]);
    } else {
      var n := |who| - 1;
      RunPrefix(run, who, n);
      Linearizable(run[..n + 1], who[..n]);
      var gs :| Explains(run[..n + 1], who[..n], gs);
      ExplainsOneMore(run, who, gs);
    }
  }

  lemma ExplainsOneMore(run: seq<State>, who: seq<nat>, gs: seq<Ghost>)
    requires IsRun(run, who) && who != [] && Explains(run[..|who|], who[..|who| - 1], gs)
    ensures exists gs' :: Explains(run, who, gs')
  {
    hide Inv, SpecStep, View, Step, Initial, GhostStep;
    var n := |who| - 1;
    assert Step(run[n], run[n + 1], who[n]);
    assert run[..n + 1][n] == run[n] && Inv(run[n], gs[n]);
    StepProcess(run[n], run[n + 1], who[n]);
    StepKeeps(run[n], gs[n], run[n + 1], who[n]);
    StepRefines(run[n], gs[n], run[n + 1], who[n]);
    var gs' := gs + [GhostStep(run[n], gs[n], who[n])];
    forall i | 0 <= i < |run| ensures Inv(run[i], gs'[i]) {
      if i <= n { assert run[..n + 1][i] == run[i] && gs'[i] == gs[i]; }
    }
    forall i | 0 <= i < |who| ensures SpecStep(View(run[i], gs'[i]), View(run[i + 1], gs'[i + 1]), who[i]) {
      if i < n {
        assert who[..n][i] == who[i] && run[..n + 1][i] == run[i] && run[..n + 1][i + 1] == run[i + 1];
      }
    }
    assert Explains(run, who, gs');
  }

  lemma StepProcess(s: State, s': State, p: nat)
    requires Step(s, s', p)
    ensures p < |s.procs|
  {
  }

  /** Whatever an operation answers, it is what the operation does to the map at some step of its own
      process, after which the answer stands. */
  lemma {:induction false} CommitPoint(run: seq<State>, who: seq<nat>, gs: seq<Ghost>, p: nat, i: nat, op: Op, res: Res)
    requires IsRun(run, who) && Explains(run, who, gs) && i < |run| && p < |run[i].procs|
    requires PhaseOf(run[i].procs[p]) == Decided(op, res) || PhaseOf(run[i].procs[p]) == Replied(op, res)
    ensures exists j | 0 <= j < i :: Commits(run, who, gs, p, j, op, res) && Stands(run, p, j + 1, i, op, res)
    decreases i
  {
    hide Inv, PhaseOf, Step, Dies, Apply, Sized, Initial, Stands;
    if i == 0 {
      StartsAtRest(run[0], p);
    } else {
      var k := i - 1;
      PhaseStep(run, who, gs, k, p);
      var a, b := View(run[k], gs[k]), View(run[i], gs[i]);
      if who[k] == p && Commit(a, b, a.phases[p], b.phases[p]) {
        assert Commits(run, who, gs, p, k, op, res);
        assert Stands(run, p, k + 1, i, op, res) by { StandsNow(run, p, i, op, res); }
      } else {
        CommitPoint(run, who, gs, p, k, op, res);
        var j :| 0 <= j < k && Commits(run, who, gs, p, j, op, res) && Stands(run, p, j + 1, k, op, res);
        StandsOn(run, p, j + 1, k, op, res);
      }
    }
  }

  lemma StandsNow(run: seq<State>, p: nat, i: nat, op: Op, res: Res)
    requires i < |run| && p < |run[i].procs|
    requires PhaseOf(run[i].procs[p]) == Decided(op, res) || PhaseOf(run[i].procs[p]) == Replied(op, res)
    ensures Stands(run, p, i, i, op, res)
  {
    hide PhaseOf;
  }

  lemma StandsOn(run: seq<State>, p: nat, from: nat, k: nat, op: Op, res: Res)
    requires k + 1 < |run| && p < |run[k + 1].procs| && Stands(run, p, from, k, op, res)
    requires PhaseOf(run[k + 1].procs[p]) == Decided(op, res) || PhaseOf(run[k + 1].procs[p]) == Replied(op, res)
    ensures Stands(run, p, from, k + 1, op, res)
  {
    hide PhaseOf;
  }

  /** One step of a run, as a step of the atomic map. */
  lemma PhaseStep(run: seq<State>, who: seq<nat>, gs: seq<Ghost>, k: nat, p: nat)
    requires IsRun(run, who) && Explains(run, who, gs) && k < |who| && p < |run[k + 1].procs|
    ensures p < |run[k].procs| == |run[k + 1].procs|
    ensures var a, b := View(run[k], gs[k]), View(run[k + 1], gs[k + 1]);
            && SpecStep(a, b, who[k])
            && a.phases[p] == PhaseOf(run[k].procs[p]) && b.phases[p] == PhaseOf(run[k + 1].procs[p])
  {
    hide Inv, PhaseOf, Step, Initial, SpecStep;
    assert Step(run[k], run[k + 1], who[k]);
    SizeKept(run[k], run[k + 1], who[k]);
    assert SpecStep(View(run[k], gs[k]), View(run[k + 1], gs[k + 1]), who[k]);
  }

  /** A store that ended its process did so at one step of its own, for one of the two causes; one of
      permitted sizes is never lost while there is room for its record. */
  lemma {:induction false} HaltCause(run: seq<State>, who: seq<nat>, gs: seq<Ghost>, p: nat, i: nat, op: Op)
    requires IsRun(run, who) && Explains(run, who, gs) && i < |run| && p < |run[i].procs|
    requires PhaseOf(run[i].procs[p]) == Lost(op)
    ensures op.Store? && exists j | 0 <= j < i :: Loses(run, who, gs, p, j, op)
    ensures SizesOk(op) ==> NoRoom(op, run[i].img.iend, run[i].img.dend)
    decreases i
  {
    hide Inv, PhaseOf, Step, Apply, NoRoom, SizesOk, Initial;
    if i == 0 {
      StartsAtRest(run[0], p);
    } else {
      var k := i - 1;
      PhaseStep(run, who, gs, k, p);
      var a, b := View(run[k], gs[k]), View(run[i], gs[i]);
      if who[k] == p && Loss(a, b, a.phases[p], b.phases[p]) {
        assert Loses(run, who, gs, p, k, op);
      } else {
        HaltCause(run, who, gs, p, k, op);
      }
      if SizesOk(op) { NoRoomLater(op, a.isize, a.dsize, b.isize, b.dsize); }
    }
  }

  lemma NoRoomLater(op: Op, isize: nat, dsize: nat, isize': nat, dsize': nat)
    requires op.Store? && NoRoom(op, isize, dsize) && isize <= isize' && dsize <= dsize'
    ensures NoRoom(op, isize', dsize')
  {
  }

  /** At step j process p's pending store ends its process. */
  ghost predicate Loses(run: seq<State>, who: seq<nat>, gs: seq<Ghost>, p: nat, j: nat, op: Op)
    requires |run| == |who| + 1 == |gs| && op.Store?
  {
    && j < |who| && who[j] == p && p < |run[j].procs| && PhaseOf(run[j].procs[p]) == Pending(op)
    && Dies(op, gs[j].m, gs[j + 1].m, run[j].img.iend, run[j].img.dend)
  }

  lemma SizeKept(s: State, s': State, p: nat)
    requires Step(s, s', p)
    ensures |s'.procs| == |s.procs|
  {
  }

  lemma StartsAtRest(s: State, p: nat)
    requires Initial(s) && p < |s.procs|
    ensures PhaseOf(s.procs[p]) == Rest
  {
  }

  /** At step j process p's pending operation happens, with answer res. */
  ghost predicate Commits(run: seq<State>, who: seq<nat>, gs: seq<Ghost>, p: nat, j: nat, op: Op, res: Res)
    requires |run| == |who| + 1 == |gs|
  {
    && j < |who| && who[j] == p && p < |run[j].procs| && PhaseOf(run[j].procs[p]) == Pending(op)
    && (gs[j + 1].m, res) == Apply(op, gs[j].m)
  }

  ghost predicate Stands(run: seq<State>, p: nat, from: nat, to: nat, op: Op, res: Res)
    requires to < |run|
  {
    forall k | from <= k <= to :: p < |run[k].procs|
      && (PhaseOf(run[k].procs[p]) == Decided(op, res) || PhaseOf(run[k].procs[p]) == Replied(op, res))
  }
}
