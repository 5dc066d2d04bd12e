/** What the pointer cells mean: 137 hash chains and a free list that share out the index records,
    and the finite map from keys to data they represent. Each write the library makes to a cell,
    a record or an extent is one move of this catalog. */
module DbCatalog {
  import opened Links
  import opened Wrappers
  import opened DbCodec
  import opened DbImage

  // ----- the hash -----

  /** A char of the key as a signed byte. */
  function SignedChar(c: char): int {
    var b := c as int % 256;
    if b < 128 then b else b - 256
  }

  const ULONG := 0x1_0000_0000_0000_0000

  /** Sum of the chars, each times its 1-based index, in unsigned long arithmetic. */
  function HashSum(key: string): (s: nat) {
    if key == [] then 0
    else (HashSum(key[..|key| - 1]) + SignedChar(key[|key| - 1]) * |key|) % ULONG
  }

  /** The same sum without a limit. */
  function PlainSum(key: string): int {
    if key == [] then 0 else PlainSum(key[..|key| - 1]) + SignedChar(key[|key| - 1]) * |key|
  }

  /** Wrapping around at every step is wrapping around once at the end, also for negative chars. */
  lemma {:induction false} HashSumWraps(key: string)
    ensures HashSum(key) == PlainSum(key) % ULONG
    decreases |key|
  {
    if key != [] {
      HashSumWraps(key[..|key| - 1]);
      var a, b := PlainSum(key[..|key| - 1]), SignedChar(key[|key| - 1]) * |key|;
      ModPlus(a, b);
    }
  }

  lemma ModPlus(a: int, b: int)
    ensures (a % ULONG + b) % ULONG == (a + b) % ULONG
  {
    var q := a / ULONG;
    assert a + b == q * ULONG + (a % ULONG + b);
  }

  function Hash(key: string): (h: nat)
    ensures h < NHASH
  {
    HashSum(key) % NHASH
  }

  /** The chars of a key as the machine sees them: bytes from -128 to 127. */
  function SignedBytes(key: string): (s: seq<int>)
    ensures |s| == |key|
    ensures forall i | 0 <= i < |key| ::
              var b := key[i] as int % 256; s[i] == if b < 128 then b else b - 256
  {
    seq(|key|, i requires 0 <= i < |key| => SignedChar(key[i]))
  }

  /** n times the first, n + 1 times the second, and so on, from the front. */
  function Weighted(s: seq<int>, n: nat): int { if s == [] then 0 else n * s[0] + Weighted(s[1..], n + 1) }

  lemma {:induction false} WeightedAppend(s: seq<int>, n: nat, x: int)
    ensures Weighted(s + [x], n) == Weighted(s, n) + (n + |s|) * x
    decreases |s|
  {
    if s == [] {
      assert s + [x] == [x] && [x][1..] == [];
    } else {
      assert (s + [x])[1..] == s[1..] + [x];
      WeightedAppend(s[1..], n + 1, x);
    }
  }

  lemma {:induction false} PlainSumIs(key: string)
    ensures PlainSum(key) == Weighted(SignedBytes(key), 1)
    decreases |key|
  {
    if key != [] {
      var n := |key| - 1;
      PlainSumIs(key[..n]);
      LastByte(key);
      WeightedAppend(SignedBytes(key[..n]), 1, SignedChar(key[n]));
      hide SignedBytes, SignedChar, Weighted;
    }
  }

  lemma LastByte(key: string)
    requires key != []
    ensures SignedBytes(key) == SignedBytes(key[..|key| - 1]) + [SignedChar(key[|key| - 1])]
  {
  }

  /** The chain of a key is part of the file format: signed bytes times 1, 2, 3 ..., reduced to 64 bits and
      then to 137 chains. */
  lemma HashIs(key: string)
    ensures Hash(key) == Weighted(SignedBytes(key), 1) % 0x1_0000_0000_0000_0000 % 137
  {
    HashSumWraps(key);
    PlainSumIs(key);
  }

  lemma HashOfOne(c: char)
    ensures c as int < 128 ==> Hash([c]) == c as int % 137
    ensures 128 <= c as int < 256 ==> Hash([c]) == (0x1_0000_0000_0000_0000 - 256 + c as int) % 137
  {
    HashIs([c]);
    assert SignedBytes([c])[1..] == [];
    assert Weighted(SignedBytes([c]), 1) == SignedChar(c);
  }

  /** Order matters. */
  lemma HashSamples()
    ensures Hash("a") == 97 && Hash("ab") == 19 && Hash("ba") == 18 && Hash("") == 0
  {
    HashOfOne('a');
    assert "ab"[..1] == "a" && "ba"[..1] == "b" && "a"[..0] == "" && "b"[..0] == "";
    assert HashSum("a") == 97 && HashSum("b") == 98;
    assert HashSum("ab") == 97 + 2 * 98 && HashSum("ba") == 98 + 2 * 97;
  }

  // ----- the catalog -----

  /** Where an index record is: on a chain, on the free list, or in a process's hands. */
  datatype Owner = Chain(h: nat) | OnFree | Held(p: nat)

  /** Whose a data extent is: an index record's, or that of a process about to write one. */
  datatype ExtOwner = Of(o: nat) | Loose(p: nat)

  /** fix[h] is a pointer write still owed to chain h: cell and value. */
  datatype Catalog = Catalog(
    chains: seq<seq<nat>>,
    fix: seq<Option<(nat, nat)>>,
    free: seq<nat>,
    own: map<nat, Owner>,
    ext: map<nat, ExtOwner>,
    loc: map<string, nat>)   // the record of each live key

  function Eff(ptr: map<nat, nat>, f: Option<(nat, nat)>): map<nat, nat> {
    match f case None => ptr case Some((c, v)) => ptr[c := v]
  }

  ghost predicate ChainsOk(ptr: map<nat, nat>, fix: seq<Option<(nat, nat)>>, chains: seq<seq<nat>>) {
    && |chains| == |fix| == NHASH
    && (forall h {:trigger chains[h]} | 0 <= h < NHASH ::
          Linked(Eff(ptr, fix[h]), HeadOff(h), chains[h]) && NoDup(chains[h]))
  }

  ghost predicate FreeOk(ptr: map<nat, nat>, free: seq<nat>) {
    Linked(ptr, FREE_OFF, free) && NoDup(free)
  }

  /** Chains and free list share out the records: none twice, none left over. */
  ghost predicate OwnOk(keys: set<nat>, own: map<nat, Owner>, chains: seq<seq<nat>>, free: seq<nat>) {
    && own.Keys == keys && |chains| == NHASH
    && (forall o | o in own :: o >= FIRST_REC && (own[o].Chain? ==> own[o].h < NHASH))
    && (forall h, o {:trigger o in chains[h]} | 0 <= h < NHASH && o in chains[h] :: o in own && own[o] == Chain(h))
    && (forall o | o in own && own[o].Chain? :: o in chains[own[o].h])
    && (forall o | o in free :: o in own && own[o] == OnFree)
    && (forall o | o in own && own[o] == OnFree :: o in free)
  }

  /** Every record has a data extent of its recorded length, and no two share one. */
  ghost predicate ExtOk(rec: map<nat, Rec>, dat: map<nat, string>, ext: map<nat, ExtOwner>) {
    && ext.Keys == dat.Keys
    && (forall o | o in rec :: rec[o].datoff in ext && ext[rec[o].datoff] == Of(o))
    && (forall o | o in rec :: |dat[rec[o].datoff]| + 1 == rec[o].datlen)
  }

  /** Live keys are unique and sit on the chain they hash to. */
  ghost predicate LocOk(rec: map<nat, Rec>, own: map<nat, Owner>, loc: map<string, nat>) {
    && own.Keys == rec.Keys
    && (forall k | k in loc :: loc[k] in own && own[loc[k]] == Chain(Hash(k)) && rec[loc[k]].key == k)
    && (forall o | o in own && own[o].Chain? :: rec[o].key in loc && loc[rec[o].key] == o)
  }

  /** Free records are blanked out. */
  ghost predicate FreeBlank(rec: map<nat, Rec>, dat: map<nat, string>, own: map<nat, Owner>) {
    forall o | o in own && own[o] == OnFree ::
      o in rec && AllBlank(rec[o].key) && rec[o].datoff in dat && AllBlank(dat[rec[o].datoff])
  }

  ghost predicate CatInv(img: Image, g: Catalog) {
    && ChainsOk(img.ptr, g.fix, g.chains)
    && FreeOk(img.ptr, g.free)
    && OwnOk(img.rec.Keys, g.own, g.chains, g.free)
    && ExtOk(img.rec, img.dat, g.ext)
    && LocOk(img.rec, g.own, g.loc)
    && FreeBlank(img.rec, img.dat, g.own)
  }

  /** The data of each live key. */
  function LiveMap(rec: map<nat, Rec>, dat: map<nat, string>, loc: map<string, nat>): map<string, string> {
    map k | k in loc && loc[k] in rec && rec[loc[k]].datoff in dat :: dat[rec[loc[k]].datoff]
  }

  /** The map the files represent. */
  function MapOf(img: Image, g: Catalog): map<string, string> { LiveMap(img.rec, img.dat, g.loc) }

  /** The live keys are exactly the keys of that map. */
  lemma LiveKeys(img: Image, g: Catalog)
    requires CatInv(img, g)
    ensures MapOf(img, g).Keys == g.loc.Keys
    ensures forall k | k in g.loc ::
              && g.loc[k] in img.rec && img.rec[g.loc[k]].datoff in img.dat
              && MapOf(img, g)[k] == img.dat[img.rec[g.loc[k]].datoff]
  {
    forall k | k in g.loc ensures g.loc[k] in img.rec && img.rec[g.loc[k]].datoff in img.dat {
      assert g.own[g.loc[k]] == Chain(Hash(k));
      assert img.rec[g.loc[k]].datoff in g.ext;
    }
  }

  /** The walk down chain h: what its i-th cell points to. */
  lemma ChainCell(img: Image, g: Catalog, h: nat, i: nat)
    requires CatInv(img, g) && h < NHASH && h < |g.fix| && g.fix[h] == None && h < |g.chains| && i <= |g.chains[h]|
    ensures var c := CellOf(HeadOff(h), g.chains[h], i); c in img.ptr && img.ptr[c] == Nth(g.chains[h], i)
  {
    assert Linked(Eff(img.ptr, g.fix[h]), HeadOff(h), g.chains[h]);
    LinkedAt(img.ptr, HeadOff(h), g.chains[h], i);
  }

  lemma ChainElem(img: Image, g: Catalog, h: nat, i: nat)
    requires CatInv(img, g) && h < NHASH && h < |g.chains| && i < |g.chains[h]|
    ensures var o := g.chains[h][i];
            && o in img.rec && o in g.own && g.own[o] == Chain(h) && o >= FIRST_REC
            && Hash(img.rec[o].key) == h && img.rec[o].key in g.loc && g.loc[img.rec[o].key] == o
  {
    var o := g.chains[h][i];
    assert o in g.chains[h] && g.own[o] == Chain(h);
  }

  /** A live key is somewhere on its chain. */
  lemma ChainHas(img: Image, g: Catalog, key: string) returns (i: nat)
    requires CatInv(img, g) && key in g.loc
    ensures |g.chains| == NHASH && i < |g.chains[Hash(key)]| && g.chains[Hash(key)][i] == g.loc[key]
    ensures g.loc[key] in img.rec && img.rec[g.loc[key]].key == key
  {
    assert g.own[g.loc[key]] == Chain(Hash(key));
    i :| 0 <= i < |g.chains[Hash(key)]| && g.chains[Hash(key)][i] == g.loc[key];
  }

  lemma FreeCell(img: Image, g: Catalog, i: nat)
    requires CatInv(img, g) && i <= |g.free|
    ensures var c := CellOf(FREE_OFF, g.free, i); c in img.ptr && img.ptr[c] == Nth(g.free, i)
  {
    LinkedAt(img.ptr, FREE_OFF, g.free, i);
  }

  lemma FreeElem(img: Image, g: Catalog, i: nat)
    requires CatInv(img, g) && i < |g.free|
    ensures var o := g.free[i]; o in img.rec && o in g.own && g.own[o] == OnFree && o >= FIRST_REC
  {
    assert g.free[i] in g.free;
  }

  /** The extent of a record. */
  lemma RecExtent(img: Image, g: Catalog, o: nat)
    requires CatInv(img, g) && o in img.rec
    ensures img.rec[o].datoff in img.dat && |img.dat[img.rec[o].datoff]| + 1 == img.rec[o].datlen
    ensures o in g.own && img.rec[o].datoff in g.ext && g.ext[img.rec[o].datoff] == Of(o)
  {
  }

  // ----- moves -----

  /** A write to a cell that is in no chain and in no owed write's way keeps every chain. */
  lemma ChainsFrame(ptr: map<nat, nat>, ptr': map<nat, nat>, fix: seq<Option<(nat, nat)>>,
                    chains: seq<seq<nat>>, c: nat)
    requires ChainsOk(ptr, fix, chains)
    requires forall e | e in ptr && e != c :: e in ptr' && ptr'[e] == ptr[e]
    requires forall h | 0 <= h < NHASH :: c != HeadOff(h) && c !in chains[h]
    ensures ChainsOk(ptr', fix, chains)
  {
    forall h | 0 <= h < NHASH
      ensures Linked(Eff(ptr', fix[h]), HeadOff(h), chains[h]) && NoDup(chains[h])
    {
      LinkedFrame(Eff(ptr, fix[h]), Eff(ptr', fix[h]), HeadOff(h), chains[h]);
    }
  }

  /** A write that touches chain h alone. */
  lemma ChainsUpdate(ptr: map<nat, nat>, ptr': map<nat, nat>, fix: seq<Option<(nat, nat)>>,
                     chains: seq<seq<nat>>, c: nat, h: nat, f: Option<(nat, nat)>, s: seq<nat>)
    requires ChainsOk(ptr, fix, chains) && h < NHASH
    requires forall e | e in ptr && e != c :: e in ptr' && ptr'[e] == ptr[e]
    requires forall k | 0 <= k < NHASH && k != h :: c != HeadOff(k) && c !in chains[k]
    requires Linked(Eff(ptr', f), HeadOff(h), s) && NoDup(s)
    ensures ChainsOk(ptr', fix[h := f], chains[h := s])
  {
    var fix', chains' := fix[h := f], chains[h := s];
    forall k | 0 <= k < NHASH
      ensures Linked(Eff(ptr', fix'[k]), HeadOff(k), chains'[k]) && NoDup(chains'[k])
    {
      if k != h {
        assert chains'[k] == chains[k];
        LinkedFrame(Eff(ptr, fix[k]), Eff(ptr', fix[k]), HeadOff(k), chains[k]);
      }
    }
  }

  lemma FreeFrame(ptr: map<nat, nat>, ptr': map<nat, nat>, free: seq<nat>, c: nat)
    requires FreeOk(ptr, free) && c != FREE_OFF && c !in free
    requires forall e | e in ptr && e != c :: e in ptr' && ptr'[e] == ptr[e]
    ensures FreeOk(ptr', free)
  {
    LinkedFrame(ptr, ptr', FREE_OFF, free);
  }

  /** Deletion begins: the data of a live record is blanked, and with that the record leaves its
      chain for the hands of process p. The pointer before it still has to be mended. */
  function Unhook(g: Catalog, p: nat, h: nat, i: nat, key: string): Catalog
    requires h < |g.chains| && h < |g.fix| && i < |g.chains[h]|
  {
    var s := g.chains[h];
    g.(chains := g.chains[h := Without(s, i)],
       fix := g.fix[h := Some((CellOf(HeadOff(h), s, i), Nth(s, i + 1)))],
       own := g.own[s[i] := Held(p)],
       loc := g.loc - {key})
  }

  lemma UnhookOk(img: Image, g: Catalog, p: nat, h: nat, i: nat, t: string)
    requires CatInv(img, g) && h < NHASH && h < |g.chains| && h < |g.fix| && i < |g.chains[h]| && g.fix[h] == None
    requires var o := g.chains[h][i]; o in img.rec && |t| + 1 == img.rec[o].datlen
    ensures var o := g.chains[h][i];
            CatInv(SetDat(img, img.rec[o].datoff, t), Unhook(g, p, h, i, img.rec[o].key))
  {
    hide ChainsOk, FreeOk, OwnOk, ExtOk, LocOk, FreeBlank;
    var o := g.chains[h][i];
    UnhookChains(img.ptr, img.rec.Keys, g, p, h, i, img.rec[o].key);
    UnhookOwn(img.ptr, img.rec.Keys, g, p, h, i, img.rec[o].key);
    UnhookLoc(img.rec, g, p, h, i);
    DataKept(img.rec, img.dat, g.ext, o, t);
    BlankKept(img.rec, img.dat, g.ext, g.own, g.own[o := Held(p)], o, t);
  }

  lemma UnhookLoc(rec: map<nat, Rec>, g: Catalog, p: nat, h: nat, i: nat)
    requires LocOk(rec, g.own, g.loc) && OwnOk(rec.Keys, g.own, g.chains, g.free)
    requires h < NHASH && h < |g.chains| && h < |g.fix| && i < |g.chains[h]| && g.chains[h][i] in rec
    ensures var g' := Unhook(g, p, h, i, rec[g.chains[h][i]].key); LocOk(rec, g'.own, g'.loc)
  {
    var o := g.chains[h][i];
    assert o in g.chains[h] && g.own[o] == Chain(h);
  }

  /** Data of unchanged length in the extent of one record. */
  lemma DataKept(rec: map<nat, Rec>, dat: map<nat, string>, ext: map<nat, ExtOwner>, o: nat, t: string)
    requires ExtOk(rec, dat, ext) && o in rec && |t| + 1 == rec[o].datlen
    ensures rec[o].datoff in dat && |dat[rec[o].datoff]| == |t|
    ensures ExtOk(rec, dat[rec[o].datoff := t], ext)
  {
  }

  lemma ExtentsDistinct(rec: map<nat, Rec>, dat: map<nat, string>, ext: map<nat, ExtOwner>, o: nat, e: nat)
    requires ExtOk(rec, dat, ext) && o in rec && e in rec && o != e
    ensures rec[o].datoff != rec[e].datoff
  {
    assert ext[rec[o].datoff] == Of(o) && ext[rec[e].datoff] == Of(e);
  }

  lemma BlankKept(rec: map<nat, Rec>, dat: map<nat, string>, ext: map<nat, ExtOwner>,
                  own: map<nat, Owner>, own': map<nat, Owner>, o: nat, t: string)
    requires ExtOk(rec, dat, ext) && o in rec && FreeBlank(rec, dat, own)
    requires o in own' && own'[o] != OnFree
    requires forall e | e in own' && e != o :: e in own && own[e] == own'[e]
    ensures FreeBlank(rec, dat[rec[o].datoff := t], own')
  {
    forall e | e in own' && own'[e] == OnFree ensures rec[e].datoff != rec[o].datoff {
      assert own[e] == OnFree;
      ExtentsDistinct(rec, dat, ext, o, e);
    }
  }

  lemma UnhookChains(ptr: map<nat, nat>, keys: set<nat>, g: Catalog, p: nat, h: nat, i: nat, key: string)
    requires ChainsOk(ptr, g.fix, g.chains) && OwnOk(keys, g.own, g.chains, g.free)
    requires h < NHASH && i < |g.chains[h]| && g.fix[h] == None
    ensures var g' := Unhook(g, p, h, i, key); ChainsOk(ptr, g'.fix, g'.chains)
  {
    var s, from := g.chains[h], HeadOff(h);
    assert Linked(Eff(ptr, g.fix[h]), from, s) && NoDup(s);
    HeadApart(g, keys, h);
    LinkedRemove(ptr, from, s, i);
    ChainsUpdate(ptr, ptr, g.fix, g.chains, from, h, Some((CellOf(from, s, i), Nth(s, i + 1))), Without(s, i));
  }

  /** Head cells are no records. */
  lemma HeadApart(g: Catalog, keys: set<nat>, h: nat)
    requires OwnOk(keys, g.own, g.chains, g.free) && h < NHASH
    ensures forall k | 0 <= k < NHASH :: HeadOff(h) !in g.chains[k] && FREE_OFF !in g.chains[k]
    ensures HeadOff(h) !in g.free && FREE_OFF !in g.free
    ensures forall k | 0 <= k < NHASH && k != h :: HeadOff(k) != HeadOff(h)
  {
    assert HeadOff(h) !in g.own && FREE_OFF !in g.own;
  }

  lemma UnhookOwn(ptr: map<nat, nat>, keys: set<nat>, g: Catalog, p: nat, h: nat, i: nat, key: string)
    requires ChainsOk(ptr, g.fix, g.chains) && OwnOk(keys, g.own, g.chains, g.free)
    requires h < NHASH && i < |g.chains[h]|
    ensures var g' := Unhook(g, p, h, i, key); OwnOk(keys, g'.own, g'.chains, g'.free)
  {
    var s := g.chains[h];
    assert s[i] in s && NoDup(s);
    WithoutElements(s, i);
    var g' := Unhook(g, p, h, i, key);
    forall k, e | 0 <= k < NHASH && e in g'.chains[k] ensures e in g'.own && g'.own[e] == Chain(k) {
      if k != h { assert e in g.chains[k]; }
    }
  }

  /** New data for one live record changes the map at its key alone. */
  lemma LiveMapSet(img: Image, g: Catalog, o: nat, t: string)
    requires CatInv(img, g) && o in g.own && g.own[o].Chain?
    ensures o in img.rec && img.rec[o].key in g.loc && g.loc[img.rec[o].key] == o
    ensures MapOf(SetDat(img, img.rec[o].datoff, t), g) == MapOf(img, g)[img.rec[o].key := t]
  {
    LiveKeys(img, g);
    var img' := SetDat(img, img.rec[o].datoff, t);
    hide ChainsOk, FreeOk, OwnOk, FreeBlank, ExtOk;
    forall k | k in g.loc && k != img.rec[o].key ensures img.rec[g.loc[k]].datoff != img.rec[o].datoff {
      ExtentsDistinct(img.rec, img.dat, g.ext, g.loc[k], o);
    }
  }

  /** With its data gone, the record's key is gone from the map, and nothing else is. */
  lemma UnhookMap(img: Image, g: Catalog, p: nat, h: nat, i: nat, t: string)
    requires CatInv(img, g) && h < NHASH && h < |g.chains| && h < |g.fix| && i < |g.chains[h]|
    ensures var o := g.chains[h][i];
            && o in img.rec
            && MapOf(SetDat(img, img.rec[o].datoff, t), Unhook(g, p, h, i, img.rec[o].key))
               == MapOf(img, g) - {img.rec[o].key}
  {
    var o := g.chains[h][i];
    assert o in g.chains[h] && g.own[o] == Chain(h);
    LiveMapSet(img, g, o, t);
    LiveKeys(img, g);
    var key, dat' := img.rec[o].key, img.dat[img.rec[o].datoff := t];
    hide *;
    LiveMapDrop(img.rec, dat', g.loc, key);
  }

  lemma LiveMapDrop(rec: map<nat, Rec>, dat: map<nat, string>, loc: map<string, nat>, key: string)
    ensures LiveMap(rec, dat, loc - {key}) == LiveMap(rec, dat, loc) - {key}
  {
  }

  /** A record in a process's hands is rewritten; its extent stays. */
  lemma SetHeldOk(img: Image, g: Catalog, o: nat, v: nat, r: Rec)
    requires CatInv(img, g) && o in g.own && g.own[o].Held? && o in img.rec
    requires r.datoff == img.rec[o].datoff && r.datlen == img.rec[o].datlen
    ensures CatInv(SetRec(img, o, v, r), g) && MapOf(SetRec(img, o, v, r), g) == MapOf(img, g)
  {
    hide ChainsOk, FreeOk, OwnOk, ExtOk, LocOk, FreeBlank;
    var img' := SetRec(img, o, v, r);
    HeldApart(img.rec.Keys, g, o);
    ChainsFrame(img.ptr, img'.ptr, g.fix, g.chains, o);
    FreeFrame(img.ptr, img'.ptr, g.free, o);
    assert img'.rec.Keys == img.rec.Keys;
    SetHeldParts(img.rec, img.dat, g, o, r);
    LiveMapOther(img.rec, img.dat, g, o, r);
  }

  lemma SetHeldParts(rec: map<nat, Rec>, dat: map<nat, string>, g: Catalog, o: nat, r: Rec)
    requires ExtOk(rec, dat, g.ext) && LocOk(rec, g.own, g.loc) && FreeBlank(rec, dat, g.own)
    requires o in g.own && g.own[o].Held? && r.datoff == rec[o].datoff && r.datlen == rec[o].datlen
    ensures ExtOk(rec[o := r], dat, g.ext) && LocOk(rec[o := r], g.own, g.loc) && FreeBlank(rec[o := r], dat, g.own)
  {
    assert ExtOk(rec[o := r], dat, g.ext) by { hide LocOk, FreeBlank; }
    assert LocOk(rec[o := r], g.own, g.loc) by { hide ExtOk, FreeBlank; }
    assert FreeBlank(rec[o := r], dat, g.own) by { hide ExtOk, LocOk; }
  }

  lemma LiveMapOther(rec: map<nat, Rec>, dat: map<nat, string>, g: Catalog, o: nat, r: Rec)
    requires LocOk(rec, g.own, g.loc) && (o in g.own ==> g.own[o].Held?)
    ensures LiveMap(rec[o := r], dat, g.loc) == LiveMap(rec, dat, g.loc)
  {
    assert forall k | k in g.loc :: g.loc[k] != o;
  }

  /** A held record is on no list. */
  lemma HeldApart(keys: set<nat>, g: Catalog, o: nat)
    requires OwnOk(keys, g.own, g.chains, g.free) && o in g.own && g.own[o].Held?
    ensures forall h | 0 <= h < NHASH :: o != HeadOff(h) && o !in g.chains[h]
    ensures o != FREE_OFF && o !in g.free
  {
  }

  /** A held record is filled with data of its length. */
  lemma FillHeldOk(img: Image, g: Catalog, o: nat, t: string)
    requires CatInv(img, g) && o in g.own && g.own[o].Held? && o in img.rec && |t| + 1 == img.rec[o].datlen
    ensures CatInv(SetDat(img, img.rec[o].datoff, t), g)
    ensures MapOf(SetDat(img, img.rec[o].datoff, t), g) == MapOf(img, g)
  {
    DataKept(img.rec, img.dat, g.ext, o, t);
    BlankKept(img.rec, img.dat, g.ext, g.own, g.own, o, t);
    hide ChainsOk, FreeOk, OwnOk, ExtOk, FreeBlank;
    forall k | k in g.loc && g.loc[k] in img.rec ensures img.rec[g.loc[k]].datoff != img.rec[o].datoff {
      ExtentsDistinct(img.rec, img.dat, g.ext, g.loc[k], o);
    }
  }

  /** A blanked record goes to the head of the free list. */
  function PushFree(g: Catalog, o: nat): Catalog { g.(free := [o] + g.free, own := g.own[o := OnFree]) }

  lemma PushFreeOk(img: Image, g: Catalog, o: nat)
    requires CatInv(img, g) && o in g.own && g.own[o].Held? && o in img.rec
    requires FREE_OFF in img.ptr && o in img.ptr && img.ptr[o] == img.ptr[FREE_OFF]
    requires AllBlank(img.rec[o].key) && img.rec[o].datoff in img.dat && AllBlank(img.dat[img.rec[o].datoff])
    ensures CatInv(SetPtr(img, FREE_OFF, o), PushFree(g, o))
    ensures MapOf(SetPtr(img, FREE_OFF, o), PushFree(g, o)) == MapOf(img, g)
  {
    HeldApart(img.rec.Keys, g, o);
    HeadApart(g, img.rec.Keys, 0);
    assert LocOk(img.rec, PushFree(g, o).own, g.loc);
    assert FreeBlank(img.rec, img.dat, PushFree(g, o).own);
    LinkedPush(img.ptr, FREE_OFF, g.free, o);
    hide ChainsOk, OwnOk, ExtOk, LocOk, FreeBlank, Linked, NoDup;
    ChainsFrame(img.ptr, SetPtr(img, FREE_OFF, o).ptr, g.fix, g.chains, FREE_OFF);
    PushFreeOwn(img.rec.Keys, g, o);
  }

  lemma PushFreeOwn(keys: set<nat>, g: Catalog, o: nat)
    requires OwnOk(keys, g.own, g.chains, g.free) && o in g.own && g.own[o].Held?
    ensures OwnOk(keys, PushFree(g, o).own, g.chains, PushFree(g, o).free)
  {
  }

  /** The write owed to chain h is made. */
  function Mend(g: Catalog, h: nat): Catalog
    requires h < |g.fix|
  {
    g.(fix := g.fix[h := None])
  }

  lemma MendOk(img: Image, g: Catalog, h: nat, c: nat, v: nat)
    requires CatInv(img, g) && h < NHASH && h < |g.fix| && g.fix[h] == Some((c, v))
    requires c == HeadOff(h) || (c in g.own && g.own[c] == Chain(h))
    ensures CatInv(SetPtr(img, c, v), Mend(g, h))
  {
    hide FreeOk, OwnOk, ExtOk, LocOk, FreeBlank, Linked, NoDup;
    CellOfChain(img.rec.Keys, g, h, c);
    assert Linked(Eff(img.ptr, g.fix[h]), HeadOff(h), g.chains[h]) && NoDup(g.chains[h]);
    ChainsUpdate(img.ptr, SetPtr(img, c, v).ptr, g.fix, g.chains, c, h, None, g.chains[h]);
    assert g.chains[h := g.chains[h]] == g.chains;
    FreeFrame(img.ptr, SetPtr(img, c, v).ptr, g.free, c);
  }

  /** A cell of one chain is no cell of another, nor of the free list. */
  lemma CellOfChain(keys: set<nat>, g: Catalog, h: nat, c: nat)
    requires OwnOk(keys, g.own, g.chains, g.free) && h < NHASH
    requires c == HeadOff(h) || (c in g.own && g.own[c] == Chain(h))
    ensures forall k | 0 <= k < NHASH && k != h :: c != HeadOff(k) && c !in g.chains[k]
    ensures c != FREE_OFF && c !in g.free
  {
  }

  /** Element i of the free list is taken off it. */
  function TakeFree(g: Catalog, p: nat, i: nat): Catalog
    requires i < |g.free|
  {
    g.(free := Without(g.free, i), own := g.own[g.free[i] := Held(p)])
  }

  lemma TakeFreeOk(img: Image, g: Catalog, p: nat, i: nat)
    requires CatInv(img, g) && i < |g.free|
    ensures var img' := SetPtr(img, CellOf(FREE_OFF, g.free, i), Nth(g.free, i + 1));
            CatInv(img', TakeFree(g, p, i)) && MapOf(img', TakeFree(g, p, i)) == MapOf(img, g)
  {
    hide ChainsOk, FreeOk, OwnOk, ExtOk, LocOk, FreeBlank;
    var c := CellOf(FREE_OFF, g.free, i);
    TakeFreeList(img.ptr, img.rec.Keys, g, i);
    TakeFreeOwn(img.rec.Keys, g, p, i);
    ChainsFrame(img.ptr, SetPtr(img, c, Nth(g.free, i + 1)).ptr, g.fix, g.chains, c);
    TakeFreeParts(img.rec, img.dat, g, p, i);
  }

  lemma TakeFreeList(ptr: map<nat, nat>, keys: set<nat>, g: Catalog, i: nat)
    requires FreeOk(ptr, g.free) && OwnOk(keys, g.own, g.chains, g.free) && i < |g.free|
    ensures FreeOk(ptr[CellOf(FREE_OFF, g.free, i) := Nth(g.free, i + 1)], Without(g.free, i)) && NoDup(g.free)
    ensures forall h | 0 <= h < NHASH ::
              CellOf(FREE_OFF, g.free, i) != HeadOff(h) && CellOf(FREE_OFF, g.free, i) !in g.chains[h]
  {
    HeadApart(g, keys, 0);
    LinkedRemove(ptr, FREE_OFF, g.free, i);
    if i > 0 { assert g.free[i - 1] in g.free && g.own[g.free[i - 1]] == OnFree; }
  }

  lemma TakeFreeParts(rec: map<nat, Rec>, dat: map<nat, string>, g: Catalog, p: nat, i: nat)
    requires LocOk(rec, g.own, g.loc) && FreeBlank(rec, dat, g.own)
    requires i < |g.free| && OwnOk(rec.Keys, g.own, g.chains, g.free)
    ensures LocOk(rec, TakeFree(g, p, i).own, g.loc) && FreeBlank(rec, dat, TakeFree(g, p, i).own)
  {
    assert g.free[i] in g.free && g.own[g.free[i]] == OnFree;
  }

  lemma TakeFreeOwn(keys: set<nat>, g: Catalog, p: nat, i: nat)
    requires OwnOk(keys, g.own, g.chains, g.free) && i < |g.free| && NoDup(g.free)
    ensures OwnOk(keys, TakeFree(g, p, i).own, g.chains, TakeFree(g, p, i).free)
  {
    assert g.free[i] in g.free;
    WithoutElements(g.free, i);
  }

  /** Data is appended to the data file, for a record still to be written. */
  function NewExtent(g: Catalog, p: nat, d: nat): Catalog { g.(ext := g.ext[d := Loose(p)]) }

  lemma NewExtentOk(img: Image, g: Catalog, p: nat, t: string)
    requires CatInv(img, g) && img.dend !in img.dat
    ensures CatInv(AddDat(img, t), NewExtent(g, p, img.dend))
    ensures MapOf(AddDat(img, t), NewExtent(g, p, img.dend)) == MapOf(img, g)
  {
    hide ChainsOk, FreeOk, OwnOk, ExtOk, LocOk, FreeBlank;
    NewExtentParts(img.rec, img.dat, g.ext, g.own, p, img.dend, t);
  }

  lemma NewExtentParts(rec: map<nat, Rec>, dat: map<nat, string>, ext: map<nat, ExtOwner>, own: map<nat, Owner>,
                       p: nat, d: nat, t: string)
    requires ExtOk(rec, dat, ext) && FreeBlank(rec, dat, own) && d !in dat
    ensures ExtOk(rec, dat[d := t], ext[d := Loose(p)]) && FreeBlank(rec, dat[d := t], own)
    ensures forall o | o in rec :: rec[o].datoff != d
  {
    assert forall o | o in rec :: rec[o].datoff != d;
  }

  /** An index record is appended for that data. */
  function NewRecord(g: Catalog, p: nat, o: nat, d: nat): Catalog {
    g.(own := g.own[o := Held(p)], ext := g.ext[d := Of(o)])
  }

  lemma NewRecordOk(img: Image, g: Catalog, p: nat, v: nat, r: Rec)
    requires CatInv(img, g) && img.iend !in img.rec && img.iend !in img.ptr && img.iend >= FIRST_REC
    requires r.datoff in g.ext && g.ext[r.datoff] == Loose(p)
    requires r.datoff in img.dat && |img.dat[r.datoff]| + 1 == r.datlen
    ensures CatInv(AddRec(img, v, r), NewRecord(g, p, img.iend, r.datoff))
    ensures MapOf(AddRec(img, v, r), NewRecord(g, p, img.iend, r.datoff)) == MapOf(img, g)
  {
    hide ChainsOk, FreeOk, OwnOk, ExtOk, LocOk, FreeBlank;
    var o, img' := img.iend, AddRec(img, v, r);
    NewRecordOwn(img.rec.Keys, g, p, o, r.datoff);
    ChainsFrame(img.ptr, img'.ptr, g.fix, g.chains, o);
    FreeFrame(img.ptr, img'.ptr, g.free, o);
    assert img'.rec.Keys == img.rec.Keys + {o};
    NewRecordParts(img.rec, img.dat, g, p, o, r);
    LiveMapOther(img.rec, img.dat, g, o, r);
  }

  lemma NewRecordParts(rec: map<nat, Rec>, dat: map<nat, string>, g: Catalog, p: nat, o: nat, r: Rec)
    requires ExtOk(rec, dat, g.ext) && LocOk(rec, g.own, g.loc) && FreeBlank(rec, dat, g.own) && o !in rec
    requires r.datoff in g.ext && g.ext[r.datoff] == Loose(p) && |dat[r.datoff]| + 1 == r.datlen
    ensures var g' := NewRecord(g, p, o, r.datoff);
            ExtOk(rec[o := r], dat, g'.ext) && LocOk(rec[o := r], g'.own, g.loc) && FreeBlank(rec[o := r], dat, g'.own)
  {
    NewRecordExt(rec, dat, g, p, o, r);
    hide ExtOk;
    var g' := NewRecord(g, p, o, r.datoff);
    assert LocOk(rec[o := r], g'.own, g.loc) by { hide FreeBlank; }
    assert FreeBlank(rec[o := r], dat, g'.own) by { hide LocOk; }
  }

  lemma NewRecordExt(rec: map<nat, Rec>, dat: map<nat, string>, g: Catalog, p: nat, o: nat, r: Rec)
    requires ExtOk(rec, dat, g.ext) && o !in rec
    requires r.datoff in g.ext && g.ext[r.datoff] == Loose(p) && |dat[r.datoff]| + 1 == r.datlen
    ensures ExtOk(rec[o := r], dat, NewRecord(g, p, o, r.datoff).ext)
  {
    assert forall e | e in rec :: rec[e].datoff != r.datoff;
  }

  lemma NewRecordOwn(keys: set<nat>, g: Catalog, p: nat, o: nat, d: nat)
    requires OwnOk(keys, g.own, g.chains, g.free) && o !in keys && o >= FIRST_REC
    ensures OwnOk(keys + {o}, NewRecord(g, p, o, d).own, g.chains, g.free)
    ensures forall h | 0 <= h < NHASH :: o != HeadOff(h) && o !in g.chains[h]
    ensures o != FREE_OFF && o !in g.free && o !in g.own
  {
  }

  /** A finished record goes to the front of its chain. */
  function LinkFront(g: Catalog, h: nat, o: nat, key: string): Catalog
    requires h < |g.chains|
  {
    g.(chains := g.chains[h := [o] + g.chains[h]], own := g.own[o := Chain(h)], loc := g.loc[key := o])
  }

  lemma LinkFrontOk(img: Image, g: Catalog, h: nat, o: nat)
    requires CatInv(img, g) && h < NHASH && h < |g.chains| && h < |g.fix| && g.fix[h] == None
    requires o in g.own && g.own[o].Held? && o in img.rec && o in img.ptr
    requires HeadOff(h) in img.ptr && img.ptr[o] == img.ptr[HeadOff(h)]
    requires Hash(img.rec[o].key) == h && img.rec[o].key !in g.loc
    ensures CatInv(SetPtr(img, HeadOff(h), o), LinkFront(g, h, o, img.rec[o].key))
  {
    hide ChainsOk, FreeOk, OwnOk, ExtOk, LocOk, FreeBlank;
    LinkFrontChains(img.ptr, img.rec.Keys, g, h, o);
    HeadApart(g, img.rec.Keys, h);
    FreeFrame(img.ptr, SetPtr(img, HeadOff(h), o).ptr, g.free, HeadOff(h));
    LinkFrontOwn(img.rec.Keys, g, h, o, img.rec[o].key);
    LinkFrontParts(img.rec, img.dat, g, h, o);
  }

  lemma LinkFrontChains(ptr: map<nat, nat>, keys: set<nat>, g: Catalog, h: nat, o: nat)
    requires ChainsOk(ptr, g.fix, g.chains) && OwnOk(keys, g.own, g.chains, g.free)
    requires h < NHASH && g.fix[h] == None && o in g.own && g.own[o].Held?
    requires HeadOff(h) in ptr && o in ptr && ptr[o] == ptr[HeadOff(h)]
    ensures ChainsOk(ptr[HeadOff(h) := o], g.fix, g.chains[h := [o] + g.chains[h]])
  {
    var s := g.chains[h];
    assert Linked(Eff(ptr, g.fix[h]), HeadOff(h), s) && NoDup(s);
    HeldApart(keys, g, o);
    HeadApart(g, keys, h);
    hide OwnOk, Linked, NoDup;
    LinkedPush(ptr, HeadOff(h), s, o);
    ChainsUpdate(ptr, ptr[HeadOff(h) := o], g.fix, g.chains, HeadOff(h), h, None, [o] + s);
    assert g.fix[h := None] == g.fix;
  }

  lemma LinkFrontParts(rec: map<nat, Rec>, dat: map<nat, string>, g: Catalog, h: nat, o: nat)
    requires LocOk(rec, g.own, g.loc) && FreeBlank(rec, dat, g.own) && h < |g.chains|
    requires o in g.own && g.own[o].Held? && Hash(rec[o].key) == h && rec[o].key !in g.loc
    ensures var g' := LinkFront(g, h, o, rec[o].key); LocOk(rec, g'.own, g'.loc) && FreeBlank(rec, dat, g'.own)
  {
  }

  lemma LinkFrontOwn(keys: set<nat>, g: Catalog, h: nat, o: nat, key: string)
    requires OwnOk(keys, g.own, g.chains, g.free) && h < NHASH && o in g.own && g.own[o].Held?
    ensures OwnOk(keys, LinkFront(g, h, o, key).own, LinkFront(g, h, o, key).chains, g.free)
  {
    var g' := LinkFront(g, h, o, key);
    forall k, e | 0 <= k < NHASH && e in g'.chains[k] ensures e in g'.own && g'.own[e] == Chain(k) {
      if e != o { assert e in g.chains[k]; }
    }
    forall e | e in g'.own && g'.own[e].Chain? ensures e in g'.chains[g'.own[e].h] {
      if e != o { assert e in g.chains[g'.own[e].h]; }
    }
  }

  /** From then on the key is in the map, with the record's data. */
  lemma LinkFrontMap(img: Image, g: Catalog, h: nat, o: nat)
    requires CatInv(img, g) && h < |g.chains| && o in img.rec
    ensures img.rec[o].datoff in img.dat
    ensures MapOf(SetPtr(img, HeadOff(h), o), LinkFront(g, h, o, img.rec[o].key))
            == MapOf(img, g)[img.rec[o].key := img.dat[img.rec[o].datoff]]
  {
    assert img.rec[o].datoff in g.ext;
  }

  /** The data of a live record is overwritten with data of the same length. */
  lemma OverwriteOk(img: Image, g: Catalog, h: nat, o: nat, t: string)
    requires CatInv(img, g) && h < NHASH && o in g.own && g.own[o] == Chain(h) && o in img.rec
             && |t| + 1 == img.rec[o].datlen
    ensures CatInv(SetDat(img, img.rec[o].datoff, t), g)
    ensures MapOf(SetDat(img, img.rec[o].datoff, t), g) == MapOf(img, g)[img.rec[o].key := t]
  {
    hide ChainsOk, FreeOk, OwnOk, ExtOk, LocOk, FreeBlank;
    DataKept(img.rec, img.dat, g.ext, o, t);
    BlankKept(img.rec, img.dat, g.ext, g.own, g.own, o, t);
    LiveMapSet(img, g, o, t);
  }
}
