/** Walking the index file from record to record, and the empty database. */
module DbListing {
  import opened Links
  import opened Wrappers
  import opened DbCodec
  import opened DbImage
  import opened DbCatalog

  /** A place where a record starts, or the end of the file. */
  predicate Boundary(img: Image, o: nat) { o in img.rec || o == img.iend }

  /** Key and data of each record from offset o on, skipping blank keys. */
  ghost function Listing(img: Image, o: nat): seq<(string, string)>
    decreases if o < img.iend then img.iend - o else 0
  {
    if o < img.iend && o in img.rec then
      var r := img.rec[o];
      (if AllBlank(r.key) || r.datoff !in img.dat then [] else [(r.key, img.dat[r.datoff])])
      + Listing(img, RecEnd(img, o))
    else []
  }

  /** No record is left in a process's hands. */
  ghost predicate Tidy(g: Catalog) { forall o | o in g.own :: !g.own[o].Held? }

  /** Whatever record is in some process's hands, its key is blank. */
  ghost predicate NoneNamed(img: Image, g: Catalog) {
    forall o | o in g.own && g.own[o].Held? && o in img.rec :: AllBlank(img.rec[o].key)
  }

  ghost predicate DistinctKeys(all: seq<(string, string)>) {
    forall i, j | 0 <= i < j < |all| :: all[i].0 != all[j].0
  }

  /** The list holds exactly the pairs of the map whose keys are not blank, each once. */
  ghost predicate Lists(all: seq<(string, string)>, m: map<string, string>) {
    && (forall k, d :: (k, d) in all <==> k in m && m[k] == d && !AllBlank(k))
    && DistinctKeys(all)
  }

  /** One more record in hand, or one less. */
  lemma TidySet(g: Catalog, g': Catalog, o: nat, w: Owner)
    requires g'.own == g.own[o := w] && Tidy(g)
    ensures Tidy(g') <==> !w.Held?
  {
    assert o in g'.own;
  }

  /** Records follow each other without gaps. */
  lemma NextBoundary(img: Image, o: nat)
    requires Tiled(img) && Cells(img) && Spread(img) && o in img.rec
    ensures FIRST_REC <= o < RecEnd(img, o) <= img.iend && Boundary(img, RecEnd(img, o))
  {
    assert o in img.offs;
    var i :| 0 <= i < |img.offs| && img.offs[i] == o;
    assert RecEnd(img, img.offs[i]) == if i + 1 < |img.offs| then img.offs[i + 1] else img.iend;
  }

  lemma FirstBoundary(img: Image)
    requires Tiled(img)
    ensures Boundary(img, FIRST_REC)
  {
    if img.offs != [] { assert img.offs[0] in img.offs; }
  }

  /** One sequential read: end of file at the end, otherwise a record and the boundary after it. */
  lemma ScanStep(idx: string, dat: string, img: Image, g: Catalog, o: nat)
    requires FilesOk(idx, dat, img) && CatInv(img, g) && Boundary(img, o)
    ensures o >= FIRST_REC
    ensures o == img.iend ==> RecAt(idx, o).Eof? && Listing(img, o) == []
    ensures o != img.iend ==>
              && o in img.rec && o in img.ptr && o < RecEnd(img, o) <= img.iend && Boundary(img, RecEnd(img, o))
              && RecAt(idx, o) == Good(img.ptr[o], BodyLen(img.rec[o]), img.rec[o])
              && img.rec[o].datoff in img.dat
              && DataAt(dat, img.rec[o].datoff, img.rec[o].datlen) == Some(img.dat[img.rec[o].datoff])
              && Listing(img, o) == (if AllBlank(img.rec[o].key) then []
                                     else [(img.rec[o].key, img.dat[img.rec[o].datoff])]) + Listing(img, RecEnd(img, o))
  {
    hide Tiled, Spread, Cells, Extents, IdxBytes, DatBytes, CatInv, RecAt, DataAt, BodyLen, AllBlank, CleanKey;
    FilesEnds(idx, dat, img);
    if o != img.iend {
      NextBoundary(img, o);
      FilesRec(idx, dat, img, o);
      RecExtent(img, g, o);
      FilesDat(idx, dat, img, img.rec[o].datoff);
    }
  }

  /** What the listing from o on holds: live keys whose records are at o or later, with their data. */
  lemma {:induction false} ListingSound(img: Image, g: Catalog, o: nat)
    requires Geometry(img) && CatInv(img, g) && NoneNamed(img, g) && Boundary(img, o)
    ensures forall e | e in Listing(img, o) ::
              && e.0 in g.loc && g.loc[e.0] >= o && !AllBlank(e.0)
              && e.0 in MapOf(img, g) && MapOf(img, g)[e.0] == e.1
    ensures DistinctKeys(Listing(img, o))
    ensures forall i, j | 0 <= i < j < |Listing(img, o)| :: g.loc[Listing(img, o)[i].0] < g.loc[Listing(img, o)[j].0]
    decreases if o < img.iend then img.iend - o else 0
  {
    hide Tiled, Spread, Cells, Extents, CatInv, MapOf, BodyLen, NoneNamed, AllBlank;
    if o in img.rec {
      NextBoundary(img, o);
      ListingSound(img, g, RecEnd(img, o));
      RecExtent(img, g, o);
      if !AllBlank(img.rec[o].key) { ListedIsLive(img, g, o); }
      var rest := Listing(img, RecEnd(img, o));
      forall e | e in rest ensures g.loc[e.0] > o { }
      assert Listing(img, o) == rest || Listing(img, o) == [(img.rec[o].key, img.dat[img.rec[o].datoff])] + rest;
    } else {
      assert Listing(img, o) == [];
    }
  }

  /** A record whose key is not blank is live. */
  lemma ListedIsLive(img: Image, g: Catalog, o: nat)
    requires CatInv(img, g) && NoneNamed(img, g) && o in img.rec && !AllBlank(img.rec[o].key)
    ensures var k := img.rec[o].key;
            && k in g.loc && g.loc[k] == o && img.rec[o].datoff in img.dat
            && k in MapOf(img, g) && MapOf(img, g)[k] == img.dat[img.rec[o].datoff]
  {
    assert o in g.own;
    RecExtent(img, g, o);
  }

  lemma LiveRecord(img: Image, g: Catalog, k: string)
    requires CatInv(img, g) && k in g.loc
    ensures g.loc[k] in img.rec && img.rec[g.loc[k]].key == k && img.rec[g.loc[k]].datoff in img.dat
  {
    assert g.own[g.loc[k]] == Chain(Hash(k));
    RecExtent(img, g, g.loc[k]);
  }

  lemma Before(img: Image, o: nat, e: nat)
    requires Spread(img) && o in img.rec && e in img.rec && o < e
    ensures RecEnd(img, o) <= e
  {
    assert RecEnd(img, e) > e;
  }

  /** And it holds all of those: every later record with a key that is not blank is listed. */
  lemma {:induction false} ListingComplete(img: Image, o: nat, e: nat)
    requires Tiled(img) && Spread(img) && Cells(img) && Boundary(img, o)
    requires e in img.rec && e >= o && !AllBlank(img.rec[e].key) && img.rec[e].datoff in img.dat
    ensures (img.rec[e].key, img.dat[img.rec[e].datoff]) in Listing(img, o)
    decreases e - o
  {
    hide Tiled, Spread, Cells, BodyLen, AllBlank;
    NextBoundary(img, e);
    if o < e {
      NextBoundary(img, o);
      Before(img, o, e);
      ListingComplete(img, RecEnd(img, o), e);
    }
  }

  /** A key that two records carry is listed twice. */
  lemma {:induction false} ListedTwice(img: Image, o: nat, a: nat, b: nat)
    requires Tiled(img) && Spread(img) && Cells(img) && Boundary(img, o)
    requires a in img.rec && b in img.rec && o <= a < b && img.rec[a].key == img.rec[b].key && !AllBlank(img.rec[a].key)
    requires img.rec[a].datoff in img.dat && img.rec[b].datoff in img.dat
    ensures !DistinctKeys(Listing(img, o))
    decreases a - o
  {
    hide Tiled, Spread, Cells, BodyLen, AllBlank;
    NextBoundary(img, a);
    NextBoundary(img, o);
    var rest := Listing(img, RecEnd(img, o));
    if o < a {
      Before(img, o, a);
      ListedTwice(img, RecEnd(img, o), a, b);
      var i, j :| 0 <= i < j < |rest| && rest[i].0 == rest[j].0;
      var n := |Listing(img, o)| - |rest|;
      assert Listing(img, o)[n..] == rest;
      assert Listing(img, o)[n + i] == rest[i] && Listing(img, o)[n + j] == rest[j];
    } else {
      Before(img, a, b);
      ListingComplete(img, RecEnd(img, a), b);
      var j :| 0 <= j < |rest| && rest[j] == (img.rec[b].key, img.dat[img.rec[b].datoff]);
      assert Listing(img, o) == [(img.rec[a].key, img.dat[img.rec[a].datoff])] + rest;
      assert Listing(img, o)[0].0 == Listing(img, o)[j + 1].0;
    }
  }

  /** A scan of the whole file lists exactly the live pairs with non-blank keys, each once, if and only if
      no record with such a key is in some process's hands. */
  lemma ScanIsMap(img: Image, g: Catalog)
    requires Geometry(img) && CatInv(img, g)
    ensures Lists(Listing(img, FIRST_REC), MapOf(img, g)) <==> NoneNamed(img, g)
    ensures Tidy(g) ==> Lists(Listing(img, FIRST_REC), MapOf(img, g))
  {
    hide Tiled, Spread, Extents, CatInv, AllBlank, Cells, Listing, NoneNamed, MapOf, Lists;
    FirstBoundary(img);
    TidyNoneNamed(img, g);
    if NoneNamed(img, g) { ScanLists(img, g); }
    if !NoneNamed(img, g) { ScanStray(img, g); }
  }

  lemma TidyNoneNamed(img: Image, g: Catalog)
    ensures Tidy(g) ==> NoneNamed(img, g)
  {
  }

  lemma ScanLists(img: Image, g: Catalog)
    requires Geometry(img) && CatInv(img, g) && NoneNamed(img, g) && Boundary(img, FIRST_REC)
    ensures Lists(Listing(img, FIRST_REC), MapOf(img, g))
  {
    hide Tiled, Spread, Extents, CatInv, AllBlank, Cells, Listing, NoneNamed;
    ListingSound(img, g, FIRST_REC);
    LiveKeys(img, g);
    forall k, d | k in MapOf(img, g) && MapOf(img, g)[k] == d && !AllBlank(k)
      ensures (k, d) in Listing(img, FIRST_REC)
    {
      LiveRecord(img, g, k);
      NextBoundary(img, g.loc[k]);
      ListingComplete(img, FIRST_REC, g.loc[k]);
    }
  }

  /** A named record in hand is listed: under a key that is not live, or beside the live record of its key. */
  lemma ScanStray(img: Image, g: Catalog)
    requires Geometry(img) && CatInv(img, g) && !NoneNamed(img, g) && Boundary(img, FIRST_REC)
    ensures !Lists(Listing(img, FIRST_REC), MapOf(img, g))
  {
    hide Tiled, Spread, Extents, AllBlank, Cells, Listing, CatInv, MapOf, DistinctKeys, BodyLen;
    var o :| o in g.own && g.own[o].Held? && o in img.rec && !AllBlank(img.rec[o].key);
    var k := img.rec[o].key;
    NextBoundary(img, o);
    RecExtent(img, g, o);
    LiveKeys(img, g);
    ListingComplete(img, FIRST_REC, o);
    if k in g.loc { StrayTwice(img, g, o); }
  }

  lemma StrayTwice(img: Image, g: Catalog, o: nat)
    requires Geometry(img) && CatInv(img, g) && Boundary(img, FIRST_REC)
    requires o in g.own && g.own[o].Held? && o in img.rec && !AllBlank(img.rec[o].key) && img.rec[o].key in g.loc
    ensures !DistinctKeys(Listing(img, FIRST_REC))
  {
    hide Tiled, Spread, Extents, AllBlank, Cells, Listing, CatInv, DistinctKeys, BodyLen;
    var k := img.rec[o].key;
    var e := g.loc[k];
    LiveRecord(img, g, k);
    LiveIsChained(img, g, k);
    RecExtent(img, g, o);
    NextBoundary(img, o);
    NextBoundary(img, e);
    ListedTwice(img, FIRST_REC, if o < e then o else e, if o < e then e else o);
  }

  lemma LiveIsChained(img: Image, g: Catalog, k: string)
    requires CatInv(img, g) && k in g.loc
    ensures g.loc[k] in g.own && g.own[g.loc[k]].Chain?
  {
  }

  // ----- the empty database -----

  ghost function EmptyImage(): Image {
    Image([], map c: nat | c < FIRST_REC - 1 && IsHeader(c) :: 0, map[], FIRST_REC, map[], 0)
  }

  ghost function EmptyCatalog(): Catalog {
    Catalog(seq(NHASH, _ => []), seq(NHASH, _ => None), [], map[], map[], map[])
  }

  lemma EmptyOk(idx: string)
    requires |idx| == FIRST_REC && idx[FIRST_REC - 1] == NEWLINE
    requires forall j | 0 <= j < NHASH + 1 :: idx[j * PTR_SZ..j * PTR_SZ + PTR_SZ] == PtrText(0)
    ensures FilesOk(idx, "", EmptyImage()) && CatInv(EmptyImage(), EmptyCatalog())
    ensures MapOf(EmptyImage(), EmptyCatalog()) == map[] && Tidy(EmptyCatalog())
  {
    hide CatInv, Geometry;
    EmptyBytes(idx);
    EmptyShape();
    EmptyLists();
  }

  lemma EmptyBytes(idx: string)
    requires |idx| == FIRST_REC && idx[FIRST_REC - 1] == NEWLINE
    requires forall j | 0 <= j < NHASH + 1 :: idx[j * PTR_SZ..j * PTR_SZ + PTR_SZ] == PtrText(0)
    ensures IdxBytes(idx, EmptyImage()) && DatBytes("", EmptyImage())
  {
    var img := EmptyImage();
    PtrFieldWidth(0);
    forall c | c in img.ptr
      ensures c + |PtrTexts(img.ptr)[c]| <= |idx| && idx[c..c + |PtrTexts(img.ptr)[c]|] == PtrTexts(img.ptr)[c]
    {
      var j := c / PTR_SZ;
      assert c == j * PTR_SZ && j < NHASH + 1;
    }
  }

  lemma EmptyShape()
    ensures Geometry(EmptyImage())
  {
  }

  lemma EmptyLists()
    ensures CatInv(EmptyImage(), EmptyCatalog())
  {
    var img, g := EmptyImage(), EmptyCatalog();
    forall h | 0 <= h < NHASH ensures Linked(Eff(img.ptr, g.fix[h]), HeadOff(h), g.chains[h]) {
      assert IsHeader(HeadOff(h));
    }
    assert IsHeader(FREE_OFF);
  }
}
