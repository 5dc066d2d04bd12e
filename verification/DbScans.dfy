/** What db_nextrec sees while other processes are at work: when the record it has come to is on no list,
    that this does happen, and that a scan of a database at rest lists exactly what is in it. */
module DbScans {
  import opened Wrappers
  import opened DbCodec
  import opened DbImage
  import opened DbCatalog
  import opened DbListing
  import opened DbProcess
  import opened DbProtocol
  import opened DbReads
  import opened DbRuns
  import opened DbLinear
  import opened DbProgress

  // ----- the record db_nextrec has come to -----

  predicate InNoHand(procs: seq<Pc>, o: nat) { forall q | 0 <= q < |procs| :: InHand(procs[q]) != Some(o) }

  /** The record is on the chain of its key exactly when no process has it in hand; and the process that
      does is a store that has completed it and not yet linked it, or never will. */
  lemma NextRecLinked(s: State, g: Ghost, p: nat, pos: nat, r: Rec)
    requires Inv(s, g) && p < |s.procs| && s.procs[p] == Scan(ScanData(pos, r))
    ensures |g.cat.chains| == NHASH && r.datoff in s.img.dat
    ensures pos in g.cat.chains[Hash(r.key)] <==> InNoHand(s.procs, pos)
    ensures forall q | 0 <= q < |s.procs| && InHand(s.procs[q]) == Some(pos) ::
              Unlinked(s.procs[q], r.key, s.img.dat[r.datoff])
  {
    hide CatInv, Geometry, FixOk, MapOk, MapOf, Hash, AllBlank, Exclusive, InHand, HeldOk, Unlinked;
    assert Local(s.img, g, p, s.procs[p]);
    RecExtent(s.img, g.cat, pos);
    OwnedHow(s.img, g.cat, pos);
    OneHand(g.cat.own, s.procs, pos);
    forall q | 0 <= q < |s.procs| && InHand(s.procs[q]) == Some(pos)
      ensures Unlinked(s.procs[q], r.key, s.img.dat[r.datoff])
    {
      HeldWho(g.cat.own, s.procs, pos);
      assert Local(s.img, g, q, s.procs[q]);
      ScanExcludes(s, p, q);
      ScanIsReading(s.procs[p], s.procs[q]);
      HeldNamed(s.img, g, q, s.procs[q], pos);
    }
  }

  lemma ScanIsReading(pc: Pc, other: Pc)
    requires Compatible(pc, other) && pc.Scan? && pc.sc.ScanData?
    ensures !WritesFree(other)
  {
    hide Hash;
  }

  lemma OwnedHow(img: Image, cat: Catalog, o: nat)
    requires CatInv(img, cat) && o in img.rec && !AllBlank(img.rec[o].key)
    ensures |cat.chains| == NHASH && o in cat.own && !cat.own[o].OnFree?
    ensures o in cat.chains[Hash(img.rec[o].key)] <==> cat.own[o].Chain?
  {
    hide Hash;
  }

  lemma OneHand(own: map<nat, Owner>, procs: seq<Pc>, o: nat)
    requires HeldOk(own, procs) && o in own
    ensures InNoHand(procs, o) <==> !own[o].Held?
    ensures forall q | 0 <= q < |procs| && InHand(procs[q]) == Some(o) :: own[o] == Held(q)
  {
    hide InHand;
  }

  // ----- a database at rest -----

  /** No process is inside a call; some may have ended halfway through a store. */
  predicate AtRest(procs: seq<Pc>) { forall q | 0 <= q < |procs| :: Resting(procs[q]) || Gone(procs[q]) }

  /** A process that ended with a complete record it could not link. */
  predicate LeftBehind(pc: Pc) { pc.Run? && pc.at.Halted? && pc.at.held.Some? && !AllBlank(pc.op.key) }

  /** No record is left in hand exactly when no process says it has one. */
  lemma HandsTidy(s: State, g: Ghost)
    requires Inv(s, g)
    ensures Tidy(g.cat) <==> forall q | 0 <= q < |s.procs| :: InHand(s.procs[q]) == None
  {
    hide CatInv, Geometry, FixOk, MapOk, MapOf, Locals, Exclusive, InHand;
  }

  /** At rest a scan of the file lists exactly the pairs of the abstract map whose keys are not blank, each
      once, unless a process left a named record behind; then it never does. */
  lemma RestListing(s: State, g: Ghost)
    requires Inv(s, g) && AtRest(s.procs)
    ensures Lists(Listing(s.img, FIRST_REC), g.m) <==> forall q | 0 <= q < |s.procs| :: !LeftBehind(s.procs[q])
  {
    hide CatInv, Geometry, FixOk, MapOk, MapOf, HeldOk, Locals, Exclusive, Gap, Resting, Gone, Listing, Lists,
         LeftBehind, NoneNamed;
    forall p, k | 0 <= p < |s.procs| ensures !Gap(s.procs[p], k) { RestNoGap(s.procs[p], k); }
    FilesAgree(s, g);
    ScanIsMap(s.img, g.cat);
    RestNamed(s, g);
  }

  lemma RestNoGap(pc: Pc, k: string)
    requires Resting(pc) || Gone(pc)
    ensures !Gap(pc, k)
  {
  }

  lemma RestNamed(s: State, g: Ghost)
    requires Inv(s, g) && AtRest(s.procs)
    ensures NoneNamed(s.img, g.cat) <==> forall q | 0 <= q < |s.procs| :: !LeftBehind(s.procs[q])
  {
    hide CatInv, Geometry, FixOk, MapOk, MapOf, Exclusive, Local, InHand, LeftBehind, Resting, Gone, AllBlank;
    forall q | 0 <= q < |s.procs| ensures InHand(s.procs[q]).Some? ==>
        InHand(s.procs[q]).value in s.img.rec
        && (LeftBehind(s.procs[q]) <==> !AllBlank(s.img.rec[InHand(s.procs[q]).value].key))
    {
      assert Local(s.img, g, q, s.procs[q]);
      if InHand(s.procs[q]).Some? { RestHand(s.img, g, q, s.procs[q]); }
    }
    forall q | 0 <= q < |s.procs| && LeftBehind(s.procs[q]) ensures InHand(s.procs[q]).Some? { RestHolds(s.procs[q]); }
  }

  lemma RestHand(img: Image, g: Ghost, q: nat, pc: Pc)
    requires Local(img, g, q, pc) && (Resting(pc) || Gone(pc)) && InHand(pc).Some?
    ensures InHand(pc).value in img.rec && (LeftBehind(pc) <==> !AllBlank(img.rec[InHand(pc).value].key))
  {
    hide AllBlank, Hash, ChainSays, FreeSays, EndSays, AbsentSays;
  }

  lemma RestHolds(pc: Pc)
    requires LeftBehind(pc)
    ensures InHand(pc).Some?
  {
    hide AllBlank;
  }

  // ----- a scan that nobody disturbs -----

  /** Each place follows from the one before. */
  predicate Follows(img: Image, steps: seq<ScanAt>) {
    forall k {:trigger steps[k]} | 0 <= k < |steps| - 1 :: steps[k + 1] == ScanNext(img, steps[k])
  }

  /** The call has returned the next entry of the listing and stands where the rest of it begins, or there is none. */
  ghost predicate Gives(img: Image, pos: nat, sc: ScanAt) {
    && sc.ScanReturned? && Boundary(img, sc.pos)
    && if Listing(img, pos) == [] then sc.out == None && Listing(img, sc.pos) == []
       else sc.out == Some(Listing(img, pos)[0]) && Listing(img, sc.pos) == Listing(img, pos)[1..]
  }

  /** On files that do not change db_nextrec passes over the records with blank keys and over no other. */
  lemma ScanAlone(img: Image, g: Catalog, pos: nat) returns (steps: seq<ScanAt>)
    requires Geometry(img) && CatInv(img, g) && Boundary(img, pos)
    ensures steps != [] && steps[0] == ScanLock(pos) && Follows(img, steps) && Gives(img, pos, steps[|steps| - 1])
  {
    hide *;
    var rest := ReadAlone(img, g, pos);
    LockFirst(img, pos);
    Longer(img, ScanLock(pos), rest);
    steps := [ScanLock(pos)] + rest;
  }

  lemma LockFirst(img: Image, pos: nat)
    ensures ScanNext(img, ScanLock(pos)) == ScanRead(pos)
  {
  }

  lemma Longer(img: Image, sc: ScanAt, rest: seq<ScanAt>)
    requires rest != [] && rest[0] == ScanNext(img, sc) && Follows(img, rest)
    ensures Follows(img, [sc] + rest) && ([sc] + rest)[|rest|] == rest[|rest| - 1]
  {
    hide ScanNext;
    var all := [sc] + rest;
    forall k {:trigger all[k]} | 0 <= k < |all| - 1 ensures all[k + 1] == ScanNext(img, all[k]) {
      if k > 0 { assert all[k] == rest[k - 1] && all[k + 1] == rest[k]; }
    }
  }

  lemma {:induction false} ReadAlone(img: Image, g: Catalog, pos: nat) returns (steps: seq<ScanAt>)
    requires Geometry(img) && CatInv(img, g) && Boundary(img, pos)
    ensures steps != [] && steps[0] == ScanRead(pos) && Follows(img, steps) && Gives(img, pos, steps[|steps| - 1])
    decreases if pos < img.iend then img.iend - pos else 0
  {
    hide *;
    var next := ReadOne(img, g, pos);
    if next.ScanRead? {
      var rest := ReadAlone(img, g, next.pos);
      Longer(img, ScanRead(pos), rest);
      SameGives(img, pos, next.pos, rest[|rest| - 1]);
      steps := [ScanRead(pos)] + rest;
    } else {
      steps := LastSteps(img, g, pos);
    }
  }

  lemma ReadOne(img: Image, g: Catalog, pos: nat) returns (next: ScanAt)
    requires Geometry(img) && CatInv(img, g) && Boundary(img, pos)
    ensures next == ScanNext(img, ScanRead(pos))
    ensures next.ScanRead? ==> pos < img.iend && pos < next.pos <= img.iend && Boundary(img, next.pos)
                               && Listing(img, next.pos) == Listing(img, pos)
  {
    hide Tiled, Spread, Cells, Extents, CatInv, BodyLen, AllBlank;
    next := ScanNext(img, ScanRead(pos));
    if pos in img.rec {
      NextBoundary(img, pos);
      RecExtent(img, g, pos);
    }
  }

  lemma SameGives(img: Image, pos: nat, pos': nat, sc: ScanAt)
    requires Listing(img, pos) == Listing(img, pos') && Gives(img, pos', sc)
    ensures Gives(img, pos, sc)
  {
    hide Listing;
  }

  lemma LastSteps(img: Image, g: Catalog, pos: nat) returns (steps: seq<ScanAt>)
    requires Geometry(img) && CatInv(img, g) && Boundary(img, pos) && !ScanNext(img, ScanRead(pos)).ScanRead?
    ensures steps != [] && steps[0] == ScanRead(pos) && Follows(img, steps) && Gives(img, pos, steps[|steps| - 1])
  {
    hide Tiled, Spread, Cells, Extents, CatInv, BodyLen, AllBlank, CleanKey;
    if pos in img.rec {
      NextBoundary(img, pos);
      RecExtent(img, g, pos);
      var r := img.rec[pos];
      var out := Some((r.key, img.dat[r.datoff]));
      steps := [ScanRead(pos), ScanData(pos, r), ScanUnlock(RecEnd(img, pos), out),
                ScanReturned(RecEnd(img, pos), out)];
    } else {
      steps := [ScanRead(pos), ScanUnlock(pos, None), ScanReturned(pos, None)];
    }
  }

  // ----- a scan that overtakes a store -----

  ghost predicate Reached(s: State) {
    exists run, who :: IsRun(run, who) && run[|who|] == s
  }

  lemma ReachedStart(s: State)
    requires Initial(s)
    ensures Reached(s)
  {
    assert [s][0] == s && IsRun([s], []);
  }

  lemma Advance(s: State, s': State, p: nat)
    requires Reached(s) && Step(s, s', p)
    ensures Reached(s')
  {
    hide Step, Initial;
    var run, who :| IsRun(run, who) && run[|who|] == s;
    var run', who' := run + [s'], who + [p];
    forall i | 0 <= i < |who'| ensures Step(run'[i], run'[i + 1], who'[i]) {
      if i < |who| { assert Step(run[i], run[i + 1], who[i]); }
    }
    assert IsRun(run', who') && run'[|who'|] == s';
  }

  /** A store and a process that has not called yet. */
  ghost function Alone(img: Image, op: Op, at: At): State { State(img, [Run(op, at), Idle]) }

  lemma Go(img: Image, op: Op, at: At, img': Image, at': At)
    requires Reached(Alone(img, op, at)) && !at.Returned? && !at.Halted?
    requires Effect(img, op, at) == img' && Next(img, op, at) == at'
    ensures Reached(Alone(img', op, at'))
  {
    hide Reached, Effect, Next, Hash;
    var s, s' := Alone(img, op, at), Alone(img', op, at');
    assert s'.procs == s.procs[0 := s'.procs[0]];
    assert Enabled(s, 0);
    Advance(s, s', 0) by { assert Step(s, s', 0); }
  }

  /** A store that is not refused and whose record has room at the start of both files. */
  predicate Plain(op: Op) {
    && op.Store? && OpOk(op) && SizesOk(op) && FlagOk(op.flag) && op.flag != DB_REPLACE
    && LengthOk(NewRec(op, 0)) && !AllBlank(op.key)
  }

  /** In a new database the store finds neither its key nor a free record. */
  lemma FindsNothing(op: Op)
    requires Plain(op)
    ensures Reached(Alone(EmptyImage(), op, LockDat(0)))
  {
    hide Reached, Hash, LengthOk, CleanKey, AllBlank, SizesOk, FlagOk;
    var img, c := EmptyImage(), HeadOff(Hash(op.key));
    assert IsHeader(c) && IsHeader(FREE_OFF);
    StoreCalled(op);
    Go(img, op, Begin, img, LockChain);
    Go(img, op, LockChain, img, ReadHead);
    Go(img, op, ReadHead, img, Walk(c, 0));
    Go(img, op, Walk(c, 0), img, ReadPtrVal);
    Go(img, op, ReadPtrVal, img, LockFree(0));
    Go(img, op, LockFree(0), img, ReadFreeHead(0));
    Go(img, op, ReadFreeHead(0), img, WalkFree(0, FREE_OFF, 0));
    Go(img, op, WalkFree(0, FREE_OFF, 0), img, UnlockFree(0, None));
    Go(img, op, UnlockFree(0, None), img, LockDat(0));
  }

  lemma StoreCalled(op: Op)
    requires OpOk(op)
    ensures Reached(Alone(EmptyImage(), op, Begin))
  {
    hide Reached, CleanKey;
    var s, s' := State(EmptyImage(), [Idle, Idle]), Alone(EmptyImage(), op, Begin);
    ReachedStart(s);
    assert s'.procs == s.procs[0 := s'.procs[0]];
    Advance(s, s', 0) by { assert Step(s, s', 0); }
  }

  /** The files once data and record are appended. */
  ghost function Written(op: Op): Image
    requires op.Store?
  {
    WriteRecAt(WriteDatAt(EmptyImage(), 0, op.data), FIRST_REC, 0, NewRec(op, 0))
  }

  /** It appends both and is about to link the record. */
  lemma WritesBoth(op: Op)
    requires Plain(op)
    ensures Reached(Alone(Written(op), op, LinkHead(FIRST_REC)))
  {
    hide Reached, Hash, LengthOk, CleanKey, AllBlank, SizesOk, FlagOk;
    FindsNothing(op);
    var img := EmptyImage();
    Go(img, op, LockDat(0), img, SeekDat(0));
    Go(img, op, SeekDat(0), img, At.WriteDat(0, 0));
    var img1 := WriteDatAt(img, 0, op.data);
    Go(img, op, At.WriteDat(0, 0), img1, UnlockDat(0, 0));
    Go(img1, op, UnlockDat(0, 0), img1, LockIdx(0, 0));
    Go(img1, op, LockIdx(0, 0), img1, SeekIdx(0, 0));
    Go(img1, op, SeekIdx(0, 0), img1, At.WriteIdx(0, 0, FIRST_REC));
    Go(img1, op, At.WriteIdx(0, 0, FIRST_REC), Written(op), UnlockIdx(FIRST_REC));
    Go(Written(op), op, UnlockIdx(FIRST_REC), Written(op), LinkHead(FIRST_REC));
  }

  /** That store, and a scan that has come to its record. */
  ghost function Overtaken(op: Op, sc: ScanAt): State
    requires op.Store?
  {
    State(Written(op), [Run(op, LinkHead(FIRST_REC)), Scan(sc)])
  }

  lemma ScanGoes(op: Op, sc: ScanAt)
    requires op.Store? && Reached(Overtaken(op, sc)) && !sc.ScanReturned? && !sc.ScanHalted?
    ensures Reached(Overtaken(op, ScanNext(Written(op), sc)))
  {
    hide Reached, ScanNext, Hash;
    var s, s' := Overtaken(op, sc), Overtaken(op, ScanNext(Written(op), sc));
    assert s'.procs == s.procs[1 := s'.procs[1]];
    assert Enabled(s, 1);
    Advance(s, s', 1) by { assert Step(s, s', 1); }
  }

  /** It does happen: in some run db_nextrec is about to return the key and the data of a store that has
      not put them in the database yet. */
  lemma ScanOvertakes(op: Op)
    requires Plain(op)
    ensures var s, sc := Overtaken(op, ScanData(FIRST_REC, NewRec(op, 0))), ScanData(FIRST_REC, NewRec(op, 0));
            && Reached(s) && ScanNext(s.img, sc).out == Some((op.key, op.data))
            && forall g | Inv(s, g) :: op.key !in MapOf(s.img, g.cat) && (op.flag == DB_INSERT ==> op.key !in g.m)
  {
    hide Reached, Hash, LengthOk, CleanKey, SizesOk, FlagOk, Inv, MapOf;
    WritesBoth(op);
    var s, s' := Alone(Written(op), op, LinkHead(FIRST_REC)), Overtaken(op, ScanLock(FIRST_REC));
    assert s'.procs == s.procs[1 := s'.procs[1]];
    Advance(s, s', 1) by { assert Step(s, s', 1); }
    ScanGoes(op, ScanLock(FIRST_REC));
    ScanGoes(op, ScanRead(FIRST_REC));
    forall g | Inv(Overtaken(op, ScanData(FIRST_REC, NewRec(op, 0))), g)
      ensures op.key !in MapOf(Written(op), g.cat) && (op.flag == DB_INSERT ==> op.key !in g.m)
    {
      NotYetStored(Overtaken(op, ScanData(FIRST_REC, NewRec(op, 0))), g, 0, op, FIRST_REC);
    }
  }

  lemma NotYetStored(s: State, g: Ghost, p: nat, op: Op, off: nat)
    requires Inv(s, g) && p < |s.procs| && s.procs[p] == Run(op, LinkHead(off))
    ensures op.key !in MapOf(s.img, g.cat) && (op.Store? && op.flag == DB_INSERT ==> op.key !in g.m)
  {
    hide CatInv, Geometry, FixOk, MapOk, MapOf, HeldOk, Exclusive, Hash, Local;
    assert Local(s.img, g, p, s.procs[p]);
    LinkingAbsent(s.img, g, p, op, off);
    MissedKey(s.img, g.cat, op.key);
  }

  lemma LinkingAbsent(img: Image, g: Ghost, p: nat, op: Op, off: nat)
    requires Local(img, g, p, Run(op, LinkHead(off)))
    ensures op.key !in g.cat.loc && (op.Store? && op.flag == DB_INSERT ==> op.key !in g.m)
  {
    hide Hash;
  }

  /** For instance with the first insertion into a new database. */
  lemma ScanOvertakesInsert()
    ensures var op := Store("a", "bc", DB_INSERT);
            var s, sc := Overtaken(op, ScanData(FIRST_REC, NewRec(op, 0))), ScanData(FIRST_REC, NewRec(op, 0));
            && Reached(s) && ScanNext(s.img, sc).out == Some(("a", "bc"))
            && forall g | Inv(s, g) :: !LiveEntry(g.m, "a", "bc")
  {
    hide Reached, Inv, Overtaken, ScanNext;
    var op := Store("a", "bc", DB_INSERT);
    assert |Decimal(0)| == |Decimal(3)| == 1;
    assert op.key[0] == 'a' && !AllBlank(op.key);
    ScanOvertakes(op);
  }
}
