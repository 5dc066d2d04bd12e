/** Whole operations as sequences of moves: what a deletion, an append and a reuse leave behind. */
module DbMoves {
  import opened Links
  import opened Wrappers
  import opened DbCodec
  import opened DbImage
  import opened DbCatalog

  /** The image after a deletion: four writes. */
  ghost function DeletedImage(img: Image, g: Catalog, h: nat, i: nat, blankData: string, blankKey: string): Image
    requires h < |g.chains| && i < |g.chains[h]| && g.chains[h][i] in img.rec && FREE_OFF in img.ptr
    requires g.chains[h][i] in img.ptr
  {
    var s := g.chains[h];
    var r := img.rec[s[i]];
    var img1 := SetDat(img, r.datoff, blankData);
    var img2 := SetRec(img1, s[i], img.ptr[FREE_OFF], Rec(blankKey, r.datoff, r.datlen));
    var img3 := SetPtr(img2, FREE_OFF, s[i]);
    SetPtr(img3, CellOf(HeadOff(h), s, i), img.ptr[s[i]])
  }

  ghost function DeletedCatalog(img: Image, g: Catalog, p: nat, h: nat, i: nat): Catalog
    requires h < |g.chains| && h < |g.fix| && i < |g.chains[h]| && g.chains[h][i] in img.rec
  {
    Mend(PushFree(Unhook(g, p, h, i, img.rec[g.chains[h][i]].key), g.chains[h][i]), h)
  }

  /** A deletion takes the key out of the map and leaves everything in order. */
  lemma DeleteMoves(img: Image, g: Catalog, p: nat, h: nat, i: nat, blankData: string, blankKey: string)
    requires CatInv(img, g) && h < NHASH && h < |g.fix| && g.fix[h] == None && h < |g.chains| && i < |g.chains[h]|
    requires g.chains[h][i] in img.rec && g.chains[h][i] in img.ptr && FREE_OFF in img.ptr
    requires |blankData| + 1 == img.rec[g.chains[h][i]].datlen && AllBlank(blankData) && AllBlank(blankKey)
    ensures var img', g' := DeletedImage(img, g, h, i, blankData, blankKey), DeletedCatalog(img, g, p, h, i);
            && CatInv(img', g')
            && MapOf(img', g') == MapOf(img, g) - {img.rec[g.chains[h][i]].key}
  {
    var s := g.chains[h];
    var o, r := s[i], img.rec[s[i]];
    var c := CellOf(HeadOff(h), s, i);
    BeforeCell(img, g, h, i);
    RecExtent(img, g, o);
    hide CatInv, MapOf, AllBlank;
    UnhookOk(img, g, p, h, i, blankData);
    UnhookMap(img, g, p, h, i, blankData);
    var img1, g1 := SetDat(img, r.datoff, blankData), Unhook(g, p, h, i, r.key);
    FreeUnhooked(img1, g1, o, Rec(blankKey, r.datoff, r.datlen));
    var img3, g3 := SetPtr(SetRec(img1, o, img.ptr[FREE_OFF], Rec(blankKey, r.datoff, r.datlen)), FREE_OFF, o),
        PushFree(g1, o);
    MendOk(img3, g3, h, c, img.ptr[o]);
    SetPtrMap(img3, g3, Mend(g3, h), c, img.ptr[o]);
  }

  lemma DeletedParts(img: Image, g: Catalog, p: nat, h: nat, i: nat, blankData: string, blankKey: string)
    requires h < |g.fix| && g.fix[h] == None && h < |g.chains| && i < |g.chains[h]|
    requires g.chains[h][i] in img.rec && g.chains[h][i] in img.ptr && FREE_OFF in img.ptr
    ensures var img', g' := DeletedImage(img, g, h, i, blankData, blankKey), DeletedCatalog(img, g, p, h, i);
            && g'.loc == g.loc - {img.rec[g.chains[h][i]].key}
            && g'.fix == g.fix && |g'.chains| == |g.chains| && g'.own == g.own[g.chains[h][i] := OnFree]
            && img'.iend == img.iend && img'.dend == img.dend
  {
    assert DeletedCatalog(img, g, p, h, i).fix == g.fix;
  }

  /** Everything a deletion reads and writes is in place. */
  lemma DeleteReady(idx: string, dat: string, img: Image, g: Catalog, h: nat, i: nat)
    requires FilesOk(idx, dat, img) && CatInv(img, g)
    requires h < NHASH && h < |g.fix| && g.fix[h] == None && h < |g.chains| && i < |g.chains[h]|
    ensures var o, c := g.chains[h][i], CellOf(HeadOff(h), g.chains[h], i);
            && FREE_OFF in img.ptr && c in img.ptr && o in img.ptr && o in img.rec
            && o <= PTR_MAX && img.ptr[o] <= PTR_MAX && RecOk(img.rec[o])
            && img.rec[o].datoff in img.dat && |img.dat[img.rec[o].datoff]| + 1 == img.rec[o].datlen
  {
    BeforeCell(img, g, h, i);
    ChainElem(img, g, h, i);
    FilesHeads(idx, dat, img);
    FilesRec(idx, dat, img, g.chains[h][i]);
    RecExtent(img, g, g.chains[h][i]);
    FilesPtr(idx, dat, img, CellOf(HeadOff(h), g.chains[h], i));
    FilesPtr(idx, dat, img, g.chains[h][i]);
  }

  /** The second half of it: the blanked record goes on the free list. */
  lemma FreeUnhooked(img: Image, g: Catalog, o: nat, r: Rec)
    requires CatInv(img, g) && o in g.own && g.own[o].Held? && o in img.rec && o in img.ptr && FREE_OFF in img.ptr
    requires r.datoff == img.rec[o].datoff && r.datlen == img.rec[o].datlen && AllBlank(r.key)
    requires r.datoff in img.dat && AllBlank(img.dat[r.datoff])
    ensures var img' := SetPtr(SetRec(img, o, img.ptr[FREE_OFF], r), FREE_OFF, o);
            CatInv(img', PushFree(g, o)) && MapOf(img', PushFree(g, o)) == MapOf(img, g)
  {
    assert o != FREE_OFF by { HeldApart(img.rec.Keys, g, o); }
    hide CatInv, MapOf, AllBlank;
    SetHeldOk(img, g, o, img.ptr[FREE_OFF], r);
    PushFreeOk(SetRec(img, o, img.ptr[FREE_OFF], r), g, o);
  }

  lemma SetPtrMap(img: Image, g: Catalog, g': Catalog, c: nat, v: nat)
    requires g'.loc == g.loc
    ensures MapOf(SetPtr(img, c, v), g') == MapOf(img, g)
  {
  }

  /** Only pointer cells differ. */
  predicate SameButPtr(a: Image, b: Image) {
    a.offs == b.offs && a.rec == b.rec && a.dat == b.dat && a.iend == b.iend && a.dend == b.dend
  }

  lemma HeadsKept(img: Image, g: Catalog, i: nat)
    requires CatInv(img, g) && i < |g.free|
    ensures forall h | 0 <= h < NHASH :: CellOf(FREE_OFF, g.free, i) != HeadOff(h)
  {
    if i > 0 { FreeElem(img, g, i - 1); }
  }

  lemma SameLength(key: string, key': string, datoff: nat, datlen: nat)
    requires |key| == |key'|
    ensures BodyLen(Rec(key, datoff, datlen)) == BodyLen(Rec(key', datoff, datlen))
  {
  }

  /** The cell before element i of a chain: a pointer cell that holds the element's offset, and
      either the head of the chain or another record of it. */
  lemma BeforeCell(img: Image, g: Catalog, h: nat, i: nat)
    requires CatInv(img, g) && h < NHASH && h < |g.fix| && g.fix[h] == None && h < |g.chains| && i < |g.chains[h]|
    ensures var c := CellOf(HeadOff(h), g.chains[h], i);
            && c in img.ptr && img.ptr[c] == g.chains[h][i]
            && (c == HeadOff(h) || (c in g.own && g.own[c] == Chain(h) && c != g.chains[h][i]))
    ensures g.chains[h][i] in img.ptr && img.ptr[g.chains[h][i]] == Nth(g.chains[h], i + 1)
  {
    ChainCell(img, g, h, i);
    ChainCell(img, g, h, i + 1);
    assert NoDup(g.chains[h]);
    if i > 0 { ChainElem(img, g, h, i - 1); }
  }

  /** The first two parts of an append, data and index record, leave the map alone. */
  lemma AppendParts(img: Image, g: Catalog, p: nat, data: string, v: nat, r: Rec)
    requires CatInv(img, g) && img.dend !in img.dat && r.datoff == img.dend && r.datlen == |data| + 1
    requires img.iend >= FIRST_REC && img.iend !in img.rec && img.iend !in img.ptr
    ensures var img1, g1 := AddDat(img, data), NewExtent(g, p, img.dend);
            && CatInv(img1, g1) && MapOf(img1, g1) == MapOf(img, g)
            && CatInv(AddRec(img1, v, r), NewRecord(g1, p, img.iend, img.dend))
            && MapOf(AddRec(img1, v, r), NewRecord(g1, p, img.iend, img.dend)) == MapOf(img, g)
  {
    hide CatInv, MapOf;
    NewExtentOk(img, g, p, data);
    NewRecordOk(AddDat(img, data), NewExtent(g, p, img.dend), p, v, r);
  }

  /** The third, the chain pointer, puts the key in the map. */
  lemma AppendMoves(img: Image, g: Catalog, p: nat, h: nat, key: string, data: string, v: nat)
    requires CatInv(img, g) && h < NHASH && h < |g.chains| && h < |g.fix| && g.fix[h] == None
    requires img.dend !in img.dat && img.iend >= FIRST_REC && img.iend !in img.rec && img.iend !in img.ptr
    requires HeadOff(h) in img.ptr && v == img.ptr[HeadOff(h)] && Hash(key) == h && key !in g.loc
    ensures var img2 := AddRec(AddDat(img, data), v, Rec(key, img.dend, |data| + 1));
            var g2 := NewRecord(NewExtent(g, p, img.dend), p, img.iend, img.dend);
            var img', g' := SetPtr(img2, HeadOff(h), img.iend), LinkFront(g2, h, img.iend, key);
            CatInv(img', g') && MapOf(img', g') == MapOf(img, g)[key := data]
  {
    hide CatInv, MapOf, Hash;
    var r := Rec(key, img.dend, |data| + 1);
    AppendParts(img, g, p, data, v, r);
    var img2, g2 := AddRec(AddDat(img, data), v, r), NewRecord(NewExtent(g, p, img.dend), p, img.iend, img.dend);
    LinkNew(img2, g2, h, img.iend, key, data);
  }

  /** A finished record in hand goes on its chain. */
  lemma LinkNew(img: Image, g: Catalog, h: nat, o: nat, key: string, data: string)
    requires CatInv(img, g) && h < NHASH && h < |g.chains| && h < |g.fix| && g.fix[h] == None
    requires o in g.own && g.own[o].Held? && o in img.rec && o in img.ptr && HeadOff(h) in img.ptr
    requires img.ptr[o] == img.ptr[HeadOff(h)] && Hash(key) == h && key !in g.loc
    requires img.rec[o].key == key && img.rec[o].datoff in img.dat && img.dat[img.rec[o].datoff] == data
    ensures var img', g' := SetPtr(img, HeadOff(h), o), LinkFront(g, h, o, key);
            CatInv(img', g') && MapOf(img', g') == MapOf(img, g)[key := data]
  {
    hide CatInv, MapOf, Hash;
    LinkFrontOk(img, g, h, o);
    LinkFrontMap(img, g, h, o);
  }

  /** Reuse of a record in hand: data, index record, chain pointer. */
  lemma ReuseMoves(img: Image, g: Catalog, h: nat, o: nat, key: string, data: string, v: nat)
    requires CatInv(img, g) && h < NHASH && h < |g.chains| && h < |g.fix| && g.fix[h] == None
    requires o in g.own && g.own[o].Held? && o in img.rec && |data| + 1 == img.rec[o].datlen
    requires HeadOff(h) in img.ptr && v == img.ptr[HeadOff(h)] && Hash(key) == h && key !in g.loc
    ensures var d := img.rec[o].datoff;
            var img2 := SetRec(SetDat(img, d, data), o, v, Rec(key, d, |data| + 1));
            && CatInv(SetPtr(img2, HeadOff(h), o), LinkFront(g, h, o, key))
            && MapOf(SetPtr(img2, HeadOff(h), o), LinkFront(g, h, o, key)) == MapOf(img, g)[key := data]
  {
    var d := img.rec[o].datoff;
    var r := Rec(key, d, |data| + 1);
    assert HeadOff(h) != o by { HeldApart(img.rec.Keys, g, o); }
    hide CatInv, MapOf, Hash;
    FillHeldOk(img, g, o, data);
    var img1 := SetDat(img, d, data);
    SetHeldOk(img1, g, o, v, r);
    var img2 := SetRec(img1, o, v, r);
    LinkNew(img2, g, h, o, key, data);
  }

  /** Same-length replacement, for a record found on its chain. */
  lemma OverwriteFound(img: Image, g: Catalog, key: string, i: nat, data: string)
    requires CatInv(img, g) && key in g.loc && |g.chains| == NHASH && i < |g.chains[Hash(key)]|
    requires var o := g.chains[Hash(key)][i];
             o == g.loc[key] && o in img.rec && img.rec[o].key == key && |data| + 1 == img.rec[o].datlen
    ensures var d := img.rec[g.loc[key]].datoff;
            && d in img.dat && |img.dat[d]| == |data|
            && CatInv(SetDat(img, d, data), g)
            && MapOf(SetDat(img, d, data), g) == MapOf(img, g)[key := data]
  {
    ChainElem(img, g, Hash(key), i);
    RecExtent(img, g, g.loc[key]);
    OverwriteOk(img, g, Hash(key), g.loc[key], data);
  }

  lemma MapFacts(m: map<string, string>, key: string, data: string)
    ensures key !in m ==> m - {key} == m
    ensures (m - {key})[key := data] == m[key := data]
  {
  }
}
