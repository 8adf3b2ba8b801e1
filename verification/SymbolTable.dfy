/** Symbol interning. The arena table, an index of hash fingerprints with collision
    chains over one byte arena, and the plain table over reference-counted strings
    both refine the list of distinct strings in first-seen order. */
module SymbolTable {
  import opened Common
  import opened Bytes

  type Symbol = seq<byte>

  datatype Error =
    | TooManySymbols(count: nat)
    | SymbolTooLong(len: nat)
    | ArenaFull(offset: nat, len: nat, end: nat, max: nat)

  // ------------------------------------------------------------ specification

  predicate Distinct(list: seq<Symbol>) {
    forall i, j :: 0 <= i < j < |list| ==> list[i] != list[j]
  }

  /** The position of a symbol's first occurrence, or the next free position. */
  function IdOf(list: seq<Symbol>, s: Symbol): (id: nat)
    ensures id <= |list| && (id < |list| ==> list[id] == s) && forall i :: 0 <= i < id ==> list[i] != s
    ensures id < |list| <==> s in list
  {
    if list == [] then 0 else if list[0] == s then 0 else 1 + IdOf(list[1..], s)
  }

  function Grown(list: seq<Symbol>, s: Symbol): (r: seq<Symbol>)
    requires Distinct(list)
    ensures Distinct(r) && list <= r && IdOf(list, s) < |r| && r[IdOf(list, s)] == s
  {
    if s in list then list else list + [s]
  }

  lemma IdUnique(list: seq<Symbol>, s: Symbol, id: nat)
    requires Distinct(list) && id < |list| && list[id] == s
    ensures IdOf(list, s) == id
  {
  }

  /** The ids that a run of interns hands out, and the list it leaves. */
  function IdsOf(list: seq<Symbol>, trace: seq<Symbol>): seq<nat>
    requires Distinct(list)
    decreases |trace|
  {
    if trace == [] then [] else [IdOf(list, trace[0])] + IdsOf(Grown(list, trace[0]), trace[1..])
  }

  // -------------------------------------------------------------- arena table

  /** A 32-bit offset and a 16-bit length. */
  datatype Loc = Loc(offset: u32, len: nat)

  const MAX_LEN := 0xFFFF
  const MAX_U32 := 0xFFFF_FFFF

  predicate Stores(arena: seq<byte>, loc: Loc, s: Symbol) {
    loc.len <= MAX_LEN && loc.offset + loc.len <= |arena| && arena[loc.offset..loc.offset + loc.len] == s
  }

  /** The ids filed under a fingerprint, in the order in which they are tried. */
  function Chain(first: map<u64, nat>, more: map<u64, seq<nat>>, h: u64): seq<nat> {
    if h !in first then [] else [first[h]] + if h in more then more[h] else []
  }

  predicate Filed(first: map<u64, nat>, more: map<u64, seq<nat>>, list: seq<Symbol>, hash: Symbol -> u64, h: u64) {
    && (h in more ==> h in first)
    && forall i: nat :: i in Chain(first, more, h) ==> i < |list| && hash(list[i]) == h
  }

  /** Every symbol is filed under its fingerprint and nothing else is. */
  ghost predicate Indexed(first: map<u64, nat>, more: map<u64, seq<nat>>, list: seq<Symbol>, hash: Symbol -> u64) {
    && (forall i :: 0 <= i < |list| ==> i in Chain(first, more, hash(list[i])))
    && (forall h: u64 :: Filed(first, more, list, hash, h))
  }

  /** The chain of a symbol's fingerprint holds its id, if it has one. */
  lemma ChainKnows(first: map<u64, nat>, more: map<u64, seq<nat>>, list: seq<Symbol>, hash: Symbol -> u64, s: Symbol)
    requires Indexed(first, more, list, hash)
    ensures s in list ==> IdOf(list, s) in Chain(first, more, hash(s))
    ensures forall i: nat :: i in Chain(first, more, hash(s)) ==> i < |list|
  {
    assert Filed(first, more, list, hash, hash(s));
  }

  /** Filing a new symbol under its fingerprint. */
  lemma IndexedFirst(first: map<u64, nat>, more: map<u64, seq<nat>>, list: seq<Symbol>, hash: Symbol -> u64, s: Symbol)
    requires Indexed(first, more, list, hash) && hash(s) !in first
    ensures Indexed(first[hash(s) := |list|], more, list + [s], hash)
  {
    var h, first', list' := hash(s), first[hash(s) := |list|], list + [s];
    assert Filed(first, more, list, hash, h);
    assert Chain(first', more, h) == [|list|];
    assert forall i :: 0 <= i < |list| ==> list'[i] == list[i];
    forall g: u64 ensures Filed(first', more, list', hash, g) {
      assert Filed(first, more, list, hash, g);
      if g != h { assert Chain(first', more, g) == Chain(first, more, g); }
    }
    forall i | 0 <= i < |list'| ensures i in Chain(first', more, hash(list'[i])) {
      if i < |list| { assert list'[i] == list[i] && i in Chain(first, more, hash(list[i])); }
    }
  }

  lemma IndexedMore(first: map<u64, nat>, more: map<u64, seq<nat>>, list: seq<Symbol>, hash: Symbol -> u64, s: Symbol, chain: seq<nat>)
    requires Indexed(first, more, list, hash) && hash(s) in first && chain == if hash(s) in more then more[hash(s)] else []
    ensures Indexed(first, more[hash(s) := chain + [|list|]], list + [s], hash)
  {
    var h, more', list' := hash(s), more[hash(s) := chain + [|list|]], list + [s];
    assert Chain(first, more', h) == Chain(first, more, h) + [|list|];
    assert forall i :: 0 <= i < |list| ==> list'[i] == list[i];
    forall g: u64 ensures Filed(first, more', list', hash, g) {
      assert Filed(first, more, list, hash, g);
      if g != h { assert Chain(first, more', g) == Chain(first, more, g); }
    }
    forall i | 0 <= i < |list'| ensures i in Chain(first, more', hash(list'[i])) {
      if i < |list| { assert list'[i] == list[i] && i in Chain(first, more, hash(list[i])); }
    }
  }

  /** The bytes of the symbols, one after the other. */
  function Joined(list: seq<Symbol>): seq<byte> {
    if list == [] then [] else Joined(list[..|list| - 1]) + list[|list| - 1]
  }

  lemma JoinedMore(list: seq<Symbol>, s: Symbol)
    ensures Joined(list + [s]) == Joined(list) + s
  {
    assert (list + [s])[..|list|] == list;
  }

  /** A new symbol fits: its id into 32 bits, its length into 16, and the arena, with its
      bytes, into the limit and into 32 bits. */
  predicate Fits(list: seq<Symbol>, symbol: Symbol, limit: nat) {
    |list| <= 0xFFFF_FFFF && |symbol| <= 0xFFFF && |Joined(list)| + |symbol| <= limit && |Joined(list)| + |symbol| <= 0xFFFF_FFFF
  }

  class ArenaSymbolTable {
    const hash: Symbol -> u64
    const maxArenaBytes: nat
    var hashToId: map<u64, nat>
    var hashCollisions: map<u64, seq<nat>>
    var arena: seq<byte>
    var idToLoc: seq<Loc>
    /** The distinct symbols in first-seen order. */
    ghost var symbols: seq<Symbol>

    ghost predicate Valid()
      reads this
    {
      && Distinct(symbols) && |idToLoc| == |symbols| <= U32 && arena == Joined(symbols)
      && (forall i :: 0 <= i < |symbols| ==> Stores(arena, idToLoc[i], symbols[i]))
      && Indexed(hashToId, hashCollisions, symbols, hash)
    }

    constructor (hash: Symbol -> u64, maxArenaBytes: nat)
      ensures Valid() && symbols == [] && this.hash == hash && this.maxArenaBytes == maxArenaBytes
    {
      this.hash, this.maxArenaBytes := hash, maxArenaBytes;
      hashToId, hashCollisions, arena, idToLoc, symbols := map[], map[], [], [], [];
      new;
      assert forall h: u64 :: Chain(hashToId, hashCollisions, h) == [];
    }

    method Resolve(id: nat) returns (s: Symbol)
      requires Valid() && id < |symbols|
      ensures s == symbols[id]
    {
      hide Indexed;
      s := arena[idToLoc[id].offset..idToLoc[id].offset + idToLoc[id].len];
    }

    /** Finds an id if and only if the symbol has been interned, and then the id
        that resolves to it, whatever the hash function. */
    method Lookup(symbol: Symbol) returns (r: Option<nat>)
      requires Valid()
      ensures r == if symbol in symbols then Some(IdOf(symbols, symbol)) else None
    {
      hide Indexed, IdOf;
      var h := hash(symbol);
      ChainKnows(hashToId, hashCollisions, symbols, hash, symbol);
      if h !in hashToId { return None; }
      assert hashToId[h] in Chain(hashToId, hashCollisions, h);
      var first := Resolve(hashToId[h]);
      if first == symbol {
        IdUnique(symbols, symbol, hashToId[h]);
        return Some(hashToId[h]);
      }
      if h in hashCollisions {
        var ids := hashCollisions[h];
        assert forall j :: 0 <= j < |ids| ==> ids[j] in Chain(hashToId, hashCollisions, h);
        for k := 0 to |ids|
          invariant forall j :: 0 <= j < k ==> ids[j] < |symbols| && symbols[ids[j]] != symbol
        {
          var candidate := Resolve(ids[k]);
          if candidate == symbol {
            IdUnique(symbols, symbol, ids[k]);
            return Some(ids[k]);
          }
        }
      }
      r := None;
    }

    /** The errors of a new symbol, in the order in which they are looked for. */
    function Refusal(symbol: Symbol): Option<Error>
      reads this
    {
      var end, max := |arena| + |symbol|, if maxArenaBytes < MAX_U32 then maxArenaBytes else MAX_U32;
      if |idToLoc| >= U32 then Some(TooManySymbols(|idToLoc|))
      else if |symbol| > MAX_LEN then Some(SymbolTooLong(|symbol|))
      else if end > max then Some(ArenaFull(|arena|, |symbol|, end, max))
      else None
    }

    /** Interns: the old id of a known symbol, else the next id. A refused symbol
        leaves the table as it was. */
    method TryIntern(symbol: Symbol) returns (r: Result<nat, Error>)
      requires Valid()
      modifies this
      ensures Valid() && old(symbols) <= symbols
      ensures r.Ok? <==> symbol in old(symbols) || Fits(old(symbols), symbol, maxArenaBytes)
      ensures r.Err? ==> r.error == old(Refusal(symbol)).value && unchanged(this)
      ensures r.Err? && |old(symbols)| > 0xFFFF_FFFF ==> r.error == TooManySymbols(|old(symbols)|)
      ensures r.Err? && |old(symbols)| <= 0xFFFF_FFFF && |symbol| > 0xFFFF ==> r.error == SymbolTooLong(|symbol|)
      ensures r.Err? && |old(symbols)| <= 0xFFFF_FFFF && |symbol| <= 0xFFFF ==> r.error.ArenaFull? && r.error.end == |Joined(old(symbols))| + |symbol|
      ensures r.Ok? ==> r.value == IdOf(old(symbols), symbol) && symbols == Grown(old(symbols), symbol)
    {
      hide Indexed, Joined;
      var found := Lookup(symbol);
      if found.Some? { return Ok(found.value); }
      var h := hash(symbol);
      ghost var before := symbols;
      var id := InternNew(symbol);
      if id.Err? { return Err(id.error); }
      if h in hashToId {
        var chain := if h in hashCollisions then hashCollisions[h] else [];
        IndexedMore(hashToId, hashCollisions, before, hash, symbol, chain);
        hashCollisions := hashCollisions[h := chain + [id.value]];
      } else {
        IndexedFirst(hashToId, hashCollisions, before, hash, symbol);
        hashToId := hashToId[h := id.value];
      }
      r := Ok(id.value);
    }

    /** Appends the bytes and the location; the caller files the id. */
    method InternNew(symbol: Symbol) returns (r: Result<nat, Error>)
      requires Valid() && symbol !in symbols
      modifies this`arena, this`idToLoc, this`symbols
      ensures r.Err? <==> old(Refusal(symbol)).Some?
      ensures r.Err? ==> r.error == old(Refusal(symbol)).value && unchanged(this)
      ensures r.Ok? ==> arena == Joined(symbols)
      ensures r.Ok? ==> r.value == |old(symbols)| && symbols == old(symbols) + [symbol] && Distinct(symbols)
      ensures r.Ok? ==> |idToLoc| == |symbols| <= U32 && forall i :: 0 <= i < |symbols| ==> Stores(arena, idToLoc[i], symbols[i])
    {
      hide Indexed;
      var refusal := Refusal(symbol);
      if refusal.Some? { return Err(refusal.value); }
      var offset := |arena|;
      ghost var locs, bytes := idToLoc, arena;
      arena := arena + symbol;
      idToLoc := idToLoc + [Loc(offset, |symbol|)];
      JoinedMore(symbols, symbol);
      symbols := symbols + [symbol];
      forall i | 0 <= i < |symbols| ensures Stores(arena, idToLoc[i], symbols[i]) {
        if i < |locs| { StillStored(bytes, symbol, locs[i], old(symbols)[i]); }
      }
      r := Ok(|idToLoc| - 1);
    }
  }

  lemma StillStored(arena: seq<byte>, more: seq<byte>, loc: Loc, s: Symbol)
    requires Stores(arena, loc, s)
    ensures Stores(arena + more, loc, s)
  {
    assert (arena + more)[loc.offset..loc.offset + loc.len] == arena[loc.offset..loc.offset + loc.len];
  }

  // ---------------------------------------------------------------- Arc table

  /** Every symbol of the list has its id, narrowed to 32 bits. */
  ghost predicate ExactIndex(m: map<Symbol, nat>, list: seq<Symbol>) {
    && (forall s :: s in m <==> s in list)
    && (forall s :: s in m ==> m[s] == IdOf(list, s) % U32)
  }

  lemma ExactGrows(m: map<Symbol, nat>, list: seq<Symbol>, s: Symbol)
    requires Distinct(list) && ExactIndex(m, list) && s !in list
    ensures ExactIndex(m[s := |list| % U32], list + [s])
  {
    hide IdOf;
    var more := list + [s];
    assert Distinct(more);
    forall x ensures x in more <==> x in list || x == s { }
    forall x | x in more ensures IdOf(more, x) == if x == s then |list| else IdOf(list, x) {
      IdUnique(more, x, if x == s then |list| else IdOf(list, x));
    }
  }

  lemma Known(m: map<Symbol, nat>, list: seq<Symbol>, s: Symbol)
    requires ExactIndex(m, list)
    ensures (s in m <==> s in list) && (s in m ==> m[s] == IdOf(list, s) % U32)
  {
  }

  class ArcSymbolTable {
    var symbolToId: map<Symbol, nat>
    var idToSymbol: seq<Symbol>

    ghost predicate Valid()
      reads this
    {
      Distinct(idToSymbol) && ExactIndex(symbolToId, idToSymbol)
    }

    constructor ()
      ensures Valid() && idToSymbol == []
    {
      symbolToId, idToSymbol := map[], [];
    }

    /** The first-seen id, narrowed to 32 bits. */
    method Intern(symbol: Symbol) returns (id: nat)
      requires Valid()
      modifies this
      ensures Valid()
      ensures id == IdOf(old(idToSymbol), symbol) % U32 && idToSymbol == Grown(old(idToSymbol), symbol)
    {
      hide IdOf, ExactIndex, Distinct;
      Known(symbolToId, idToSymbol, symbol);
      if symbol in symbolToId { return symbolToId[symbol]; }
      id := |idToSymbol| % U32;
      ExactGrows(symbolToId, idToSymbol, symbol);
      assert Distinct(Grown(idToSymbol, symbol));
      idToSymbol := idToSymbol + [symbol];
      symbolToId := symbolToId[symbol := id];
    }
  }

  lemma IdsStep(done: seq<nat>, list: seq<Symbol>, trace: seq<Symbol>)
    requires Distinct(list) && trace != []
    ensures done + IdsOf(list, trace) == done + [IdOf(list, trace[0])] + IdsOf(Grown(list, trace[0]), trace[1..])
  {
    hide IdOf, Grown;
  }

  /** On every run without a refusal the two tables hand out the same ids: those of the list of distinct strings. */
  method RunBoth(arena: ArenaSymbolTable, arc: ArcSymbolTable, trace: seq<Symbol>) returns (ids: seq<nat>, arcIds: seq<nat>, refused: bool)
    requires arena.Valid() && arc.Valid() && arena.symbols == arc.idToSymbol
    modifies arena, arc
    ensures arena.Valid() && arc.Valid() && (refused ==> |ids| < |trace|)
    ensures !refused ==> ids == arcIds == IdsOf(old(arena.symbols), trace) && arena.symbols == arc.idToSymbol
  {
    hide IdsOf, IdOf, Grown, Indexed, ExactIndex, Stores;
    ids, arcIds, refused := [], [], false;
    ghost var list := arena.symbols;
    assert trace[0..] == trace && [] + IdsOf(list, trace) == IdsOf(list, trace);
    for i := 0 to |trace|
      invariant arena.Valid() && arc.Valid() && arena.symbols == arc.idToSymbol && |ids| == i && ids == arcIds
      invariant ids + IdsOf(arena.symbols, trace[i..]) == IdsOf(list, trace)
    {
      assert trace[i..][1..] == trace[i + 1..];
      IdsStep(ids, arena.symbols, trace[i..]);
      GrowsPast(arena.symbols, trace[i]);
      var id := arena.TryIntern(trace[i]);
      if id.Err? { return ids, arcIds, true; }
      var arcId := arc.Intern(trace[i]);
      ids, arcIds := ids + [id.value], arcIds + [arcId];
    }
    NoIds(arena.symbols);
    assert trace[|trace|..] == [] && ids + [] == ids;
  }

  lemma NoIds(list: seq<Symbol>)
    requires Distinct(list)
    ensures IdsOf(list, []) == []
  {
  }

  lemma GrowsPast(list: seq<Symbol>, s: Symbol)
    requires Distinct(list)
    ensures s !in list ==> |Grown(list, s)| == |list| + 1
  {
  }
}
