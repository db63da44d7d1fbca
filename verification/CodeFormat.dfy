/** The binary form of the instructions: what the writers put in the code file and what the loader reads back. */
module CodeFormat {
  import opened Results

  type Byte = b: int | 0 <= b < 256

  // The numbers of the instructions that are singled out; all of them are below OPCODES.
  const FSTPG4 := 22
  const FBEGINBLOCK := 29
  const FEND := 32
  const FCALL := 35
  const FSTPTEF := 39
  const FSTPTEFDD := 43
  const OPCODES := 44

  /** How a field is stored: unsigned and signed integers of 1, 2 and 4 bytes, and the 8 bytes of a double. */
  datatype Kind = U8 | U16 | U32 | I8 | I32 | F64

  function Width(k: Kind): nat {
    match k
    case U8 => 1
    case I8 => 1
    case U16 => 2
    case U32 => 4
    case I32 => 4
    case F64 => 8
  }

  predicate Signed(k: Kind) {
    k == I8 || k == I32
  }

  function Range(w: nat): (n: nat)
    ensures n >= 1
  {
    if w == 0 then 1 else 256 * Range(w - 1)
  }

  /** The values of a field; a double is the number that its 8 bytes spell. */
  predicate Fits(k: Kind, v: int) {
    if Signed(k) then -(Range(Width(k)) / 2) <= v < Range(Width(k)) / 2 else 0 <= v < Range(Width(k))
  }

  /** Integers are stored with the least significant byte first. */
  function Spell(v: nat, w: nat): (s: seq<Byte>)
    ensures |s| == w
  {
    if w == 0 then [] else [v % 256] + Spell(v / 256, w - 1)
  }

  function Unspell(s: seq<Byte>): (v: nat)
    ensures v < Range(|s|)
  {
    if s == [] then 0 else s[0] + 256 * Unspell(s[1..])
  }

  function Bytes(k: Kind, v: int): (s: seq<Byte>)
    requires Fits(k, v)
    ensures |s| == Width(k)
  {
    Spell(if v < 0 then v + Range(Width(k)) else v, Width(k))
  }

  function NumberOf(k: Kind, v: nat): (n: int)
    requires v < Range(Width(k))
    ensures Fits(k, n)
  {
    if Signed(k) && v >= Range(Width(k)) / 2 then v - Range(Width(k)) else v
  }

  /** A value and the bytes behind it; None where the bytes end too early. */
  function Read(k: Kind, b: seq<Byte>): (r: Option<(int, seq<Byte>)>)
    ensures r.Some? ==> Fits(k, r.value.0) && Width(k) <= |b| && r.value.1 == b[Width(k)..]
  {
    if |b| < Width(k) then None
    else
      Some((NumberOf(k, Unspell(b[..Width(k)])), b[Width(k)..]))
  }

  predicate AllFit(ks: seq<Kind>, vs: seq<int>) {
    |ks| == |vs| && forall i :: 0 <= i < |ks| ==> Fits(ks[i], vs[i])
  }

  function AllBytes(ks: seq<Kind>, vs: seq<int>): seq<Byte>
    requires AllFit(ks, vs)
  {
    if ks == [] then [] else Bytes(ks[0], vs[0]) + AllBytes(ks[1..], vs[1..])
  }

  function ReadAll(ks: seq<Kind>, b: seq<Byte>): (r: Option<(seq<int>, seq<Byte>)>)
    ensures r.Some? ==> AllFit(ks, r.value.0) && |r.value.1| <= |b|
  {
    if ks == [] then Some(([], b))
    else
      var (v, rest) :- Read(ks[0], b);
      var (vs, end) :- ReadAll(ks[1..], rest);
      Some(([v] + vs, end))
  }

  function Repeat(k: Kind, n: nat): (ks: seq<Kind>)
    ensures |ks| == n && forall i :: 0 <= i < n ==> ks[i] == k
  {
    seq(n, i => k)
  }

  // ----- the instructions

  /** The fields behind the opcode; None for the opcodes without an instruction class or with a layout of their own. */
  function Layout(op: int): Option<seq<Kind>> {
    if op in {0, 26, 30, 31, FEND, 36, 37} then Some([])
    else if op == 1 then Some([F64])
    else if 2 <= op <= 11 || 17 <= op <= 19 || op in {27, 28, 38, FSTPTEF} then Some([U32])
    else if op == 12 || op == 15 then Some([U8, U32, I32])
    else if op == 13 || op == 14 || op == 16 then Some([U8, U32])
    else if op == 20 || op == 40 || op == 41 then Some([U32, U32])
    else if op == 21 then Some([U32, U32, I32, U32])
    else if 23 <= op <= 25 then Some([U8])
    else if op == 33 then Some([I32])
    else if op == 34 then Some([I32, U32, U16, U16, U16, I8, I8, I8])
    else if op == 42 || op == FSTPTEFDD then Some([U32, U32, U32])
    else None
  }

  /** A block header. The numbers of elements to write are fields of their own, apart from the vectors. */
  datatype Block = Block(
    size: int, kind: int, contains: seq<(int, int)>, isLinear: bool, endoNbr: int, maxLag: int, maxLead: int,
    uCountInt: int, nbColJacob: int, detExoSize: int, exoSize: int, otherEndoSize: int, nbColOtherEndoJacob: int,
    detExogenous: seq<int>, exogenous: seq<int>, otherEndogenous: seq<int>)

  datatype Tag =
    | Fixed(op: int, args: seq<int>)
    /** numbers: output arguments, input arguments, index, additional input arguments, row, column, function type */
    | Call(numbers: seq<int>, name: seq<Byte>, argName: seq<Byte>)
    | BeginBlock(block: Block)

  const End := Fixed(FEND, [])
  const CALL_NUMBERS := [U32, U32, U32, U32, U32, U32, I32]

  /** The block types of which the solver needs the linearity, the leads and lags and the size of U. */
  predicate Complete(kind: int) {
    kind == 5 || kind == 8 || kind == 7 || kind == 6
  }

  predicate TagFits(tag: Tag) {
    match tag
    case Fixed(op, args) => Layout(op).Some? && AllFit(Layout(op).value, args)
    case Call(numbers, name, argName) => AllFit(CALL_NUMBERS, numbers) && Fits(I32, |name|) && Fits(I32, |argName|)
    case BeginBlock(d) => BlockFits(d)
  }

  predicate BlockFits(d: Block) {
    && Fits(U8, d.kind) && 0 <= d.size && Fits(I32, d.size) && AllPairsFit(d.contains)
    && Fits(U32, d.detExoSize) && Fits(U32, d.exoSize) && Fits(U32, d.otherEndoSize)
    && Fits(I32, d.endoNbr) && Fits(I32, d.maxLag) && Fits(I32, d.maxLead) && Fits(I32, d.uCountInt)
    && Fits(I32, d.nbColJacob) && Fits(U32, d.nbColOtherEndoJacob)
    && ListFits(d.detExogenous) && ListFits(d.exogenous) && ListFits(d.otherEndogenous)
  }

  predicate AllPairsFit(ps: seq<(int, int)>) {
    forall i :: 0 <= i < |ps| ==> Fits(I32, ps[i].0) && Fits(I32, ps[i].1)
  }

  predicate ListFits(vs: seq<int>) {
    AllFit(Repeat(U32, |vs|), vs)
  }

  /** No loop of the writer reads behind the end of a vector. */
  predicate Readable(d: Block) {
    && d.size <= |d.contains| && d.detExoSize <= |d.detExogenous| && d.exoSize <= |d.exogenous|
    && d.otherEndoSize <= |d.otherEndogenous|
  }

  predicate Writable(tag: Tag) {
    tag.BeginBlock? ==> Readable(tag.block)
  }

  /** The opcode that the constructor of the instruction class stores: for one class it is that of another. */
  function StoredCode(op: int): Byte
    requires Layout(op).Some?
  {
    if op == FSTPTEFDD then FSTPTEF else op
  }

  function Flag(b: bool): int {
    if b then 1 else 0
  }

  function Pairs(ps: seq<(int, int)>): (vs: seq<int>)
    ensures |vs| == 2 * |ps|
  {
    if ps == [] then [] else [ps[0].0, ps[0].1] + Pairs(ps[1..])
  }

  function NameBytes(name: seq<Byte>): seq<Byte>
    requires Fits(I32, |name|)
  {
    Bytes(I32, |name|) + name
  }

  function ListBytes(vs: seq<int>): seq<Byte>
    requires ListFits(vs)
  {
    AllBytes(Repeat(U32, |vs|), vs)
  }

  function EncodeContents(d: Block): seq<Byte>
    requires BlockFits(d) && Readable(d)
  {
    Bytes(I32, d.size) + (Bytes(U8, d.kind) + PairBytes(d.contains[..d.size]))
  }

  function PairBytes(ps: seq<(int, int)>): seq<Byte>
    requires AllPairsFit(ps)
  {
    PairsFit(ps);
    AllBytes(Repeat(I32, 2 * |ps|), Pairs(ps))
  }

  const SOLVER_FIELDS := [U8, I32, I32, I32, I32]

  function EncodeSolver(d: Block): seq<Byte>
    requires BlockFits(d)
  {
    if Complete(d.kind) then
      AllBytes(SOLVER_FIELDS, [Flag(d.isLinear), d.endoNbr, d.maxLag, d.maxLead, d.uCountInt])
    else []
  }

  const COUNT_FIELDS := [I32, U32, U32, U32, U32]

  function Counts(d: Block): seq<int> {
    [d.nbColJacob, d.detExoSize, d.exoSize, d.otherEndoSize, d.nbColOtherEndoJacob]
  }

  function EncodeLists(d: Block): seq<Byte>
    requires BlockFits(d) && Readable(d)
  {
    AllBytes(COUNT_FIELDS, Counts(d))
    + (ListBytes(d.detExogenous[..d.detExoSize])
       + (ListBytes(d.exogenous[..d.exoSize]) + ListBytes(d.otherEndogenous[..d.otherEndoSize])))
  }

  function EncodeBlock(d: Block): seq<Byte>
    requires BlockFits(d) && Readable(d)
  {
    EncodeContents(d) + (EncodeSolver(d) + EncodeLists(d))
  }

  lemma {:induction false} PairsFit(ps: seq<(int, int)>)
    requires AllPairsFit(ps)
    ensures AllFit(Repeat(I32, 2 * |ps|), Pairs(ps))
  {
    if ps != [] {
      PairsFit(ps[1..]);
      var ks := Repeat(I32, 2 * |ps|);
      forall i | 0 <= i < |ks| ensures Fits(ks[i], Pairs(ps)[i]) {
        if i >= 2 {
          assert Fits(Repeat(I32, 2 * |ps[1..]|)[i - 2], Pairs(ps[1..])[i - 2]);
        }
      }
    }
  }

  function Encode(tag: Tag): (s: seq<Byte>)
    requires TagFits(tag) && Writable(tag)
    ensures |s| > 0
  {
    match tag
    case Fixed(op, args) => [StoredCode(op)] + AllBytes(Layout(op).value, args)
    case Call(numbers, name, argName) =>
      [FCALL] + AllBytes(CALL_NUMBERS, numbers) + NameBytes(name) + NameBytes(argName)
    case BeginBlock(d) => [FBEGINBLOCK] + EncodeBlock(d)
  }

  /** The bytes of a list of instructions; None where the writer reads behind the end of a vector. */
  function EncodeAll(tags: seq<Tag>): Option<seq<Byte>>
    requires forall i :: 0 <= i < |tags| ==> TagFits(tags[i])
  {
    if tags == [] then Some([])
    else if !Writable(tags[0]) then None
    else
      var rest :- EncodeAll(tags[1..]);
      Some(Encode(tags[0]) + rest)
  }

  // ----- reading back

  /** A name ends at its first NUL. */
  function UpToNul(name: seq<Byte>): seq<Byte> {
    if name == [] || name[0] == 0 then [] else [name[0]] + UpToNul(name[1..])
  }

  function ReadName(b: seq<Byte>): (r: Option<(seq<Byte>, seq<Byte>)>)
    ensures r.Some? ==> |r.value.1| < |b|
  {
    var (n, rest) :- Read(I32, b);
    if n < 0 || |rest| < n then None else Some((UpToNul(rest[..n]), rest[n..]))
  }

  function Unpair(vs: seq<int>): seq<(int, int)> {
    if |vs| < 2 then [] else [(vs[0], vs[1])] + Unpair(vs[2..])
  }

  function DecodeContents(b: seq<Byte>): (r: Option<((int, int, seq<(int, int)>), seq<Byte>)>)
    ensures r.Some? ==> |r.value.1| <= |b|
  {
    var (n, b1) :- Read(I32, b);
    var (kind, b2) :- Read(U8, b1);
    var (vs, b3) :- ReadAll(Repeat(I32, if n < 0 then 0 else 2 * n), b2);
    Some(((n, kind, Unpair(vs)), b3))
  }

  function DecodeSolver(kind: int, b: seq<Byte>): (r: Option<(seq<int>, seq<Byte>)>)
    ensures r.Some? ==> |r.value.0| == 5 && |r.value.1| <= |b|
  {
    if Complete(kind) then ReadAll(SOLVER_FIELDS, b) else Some(([0, 0, 0, 0, 0], b))
  }

  function DecodeLists(b: seq<Byte>): (r: Option<((seq<int>, seq<int>, seq<int>, seq<int>), seq<Byte>)>)
    ensures r.Some? ==> |r.value.0.0| == 5 && |r.value.1| <= |b|
  {
    var (counts, b1) :- ReadAll(COUNT_FIELDS, b);
    assert Fits(COUNT_FIELDS[1], counts[1]) && Fits(COUNT_FIELDS[2], counts[2]) && Fits(COUNT_FIELDS[3], counts[3]);
    var (det, b2) :- ReadAll(Repeat(U32, counts[1]), b1);
    var (exo, b3) :- ReadAll(Repeat(U32, counts[2]), b2);
    var (other, b4) :- ReadAll(Repeat(U32, counts[3]), b3);
    Some(((counts, det, exo, other), b4))
  }

  function DecodeBlock(b: seq<Byte>): (r: Option<(Tag, seq<Byte>)>)
    ensures r.Some? ==> |r.value.1| <= |b|
  {
    var (contents, b1) :- DecodeContents(b);
    var (solver, b2) :- DecodeSolver(contents.1, b1);
    var (lists, b3) :- DecodeLists(b2);
    Some((BeginBlock(Block(contents.0, contents.1, contents.2, solver[0] != 0, solver[1], solver[2], solver[3],
                           solver[4], lists.0[0], lists.0[1], lists.0[2], lists.0[3], lists.0[4], lists.1, lists.2,
                           lists.3)), b3))
  }

  function DecodeCall(b: seq<Byte>): (r: Option<(Tag, seq<Byte>)>)
    ensures r.Some? ==> |r.value.1| <= |b|
  {
    var (numbers, b1) :- ReadAll(CALL_NUMBERS, b);
    var (name, b2) :- ReadName(b1);
    var (argName, b3) :- ReadName(b2);
    Some((Call(numbers, name, argName), b3))
  }

  /** The opcodes that the loader knows. */
  predicate Known(op: int) {
    0 <= op < OPCODES && op != FSTPG4
  }

  /** One instruction and the bytes behind it; None where the bytes end too early. */
  function DecodeTag(b: seq<Byte>): (r: Option<(Tag, seq<Byte>)>)
    requires b != [] && Known(b[0])
    ensures r.Some? ==> |r.value.1| < |b|
  {
    if b[0] == FBEGINBLOCK then DecodeBlock(b[1..])
    else if b[0] == FCALL then DecodeCall(b[1..])
    else
      var (args, rest) :- ReadAll(Layout(b[0]).value, b[1..]);
      Some((Fixed(b[0], args), rest))
  }

  /** The instructions up to and with FEND, or up to an unknown opcode; None where the bytes end too early. */
  function DecodeAll(b: seq<Byte>): Option<seq<Tag>>
    decreases |b|
  {
    if b == [] then None
    else if !Known(b[0]) then Some([])
    else
      var (tag, rest) :- DecodeTag(b);
      if tag == End then Some([tag])
      else
        var tags :- DecodeAll(rest);
        Some([tag] + tags)
  }

  // ----- the round trip

  lemma {:induction false} SpellUnspell(v: nat, w: nat)
    requires v < Range(w)
    ensures Unspell(Spell(v, w)) == v
  {
    if w > 0 {
      SpellUnspell(v / 256, w - 1);
      assert Spell(v, w)[1..] == Spell(v / 256, w - 1);
    }
  }

  lemma BytesBack(k: Kind, v: int, rest: seq<Byte>)
    requires Fits(k, v)
    ensures Read(k, Bytes(k, v) + rest) == Some((v, rest))
  {
    var w := Width(k);
    var u := if v < 0 then v + Range(w) else v;
    SpellUnspell(u, w);
    var b := Bytes(k, v) + rest;
    assert b[..w] == Bytes(k, v) && b[w..] == rest;
    assert Range(1) == 256 && Range(2) == 65536 && Range(4) == 256 * Range(3) && Range(3) == 256 * Range(2);
  }

  lemma {:induction false} BytesBackAll(ks: seq<Kind>, vs: seq<int>, rest: seq<Byte>)
    requires AllFit(ks, vs)
    ensures ReadAll(ks, AllBytes(ks, vs) + rest) == Some((vs, rest))
  {
    if ks == [] {
      assert AllBytes(ks, vs) + rest == rest;
    } else {
      var tail := AllBytes(ks[1..], vs[1..]);
      assert AllBytes(ks, vs) + rest == Bytes(ks[0], vs[0]) + (tail + rest);
      BytesBack(ks[0], vs[0], tail + rest);
      BytesBackAll(ks[1..], vs[1..], rest);
      assert [vs[0]] + vs[1..] == vs;
    }
  }

  lemma NameBack(name: seq<Byte>, rest: seq<Byte>)
    requires Fits(I32, |name|)
    ensures ReadName(NameBytes(name) + rest) == Some((UpToNul(name), rest))
  {
    hide Bytes, Read, Fits;
    assert NameBytes(name) + rest == Bytes(I32, |name|) + (name + rest);
    BytesBack(I32, |name|, name + rest);
    assert (name + rest)[..|name|] == name && (name + rest)[|name|..] == rest;
  }

  lemma {:induction false} PairsUnpair(ps: seq<(int, int)>)
    ensures Unpair(Pairs(ps)) == ps
  {
    if ps != [] {
      PairsUnpair(ps[1..]);
      assert Pairs(ps)[2..] == Pairs(ps[1..]);
    }
  }

  lemma Regroup<T>(a: seq<T>, b: seq<T>, c: seq<T>)
    ensures (a + b) + c == a + (b + c)
  {
  }

  lemma ContentsBack(d: Block, rest: seq<Byte>)
    requires BlockFits(d) && Readable(d)
    ensures DecodeContents(EncodeContents(d) + rest) == Some(((d.size, d.kind, d.contains[..d.size]), rest))
  {
    hide Read, ReadAll, Bytes, AllBytes, Fits;
    var ps := d.contains[..d.size];
    var ks, vs := Repeat(I32, 2 * |ps|), Pairs(ps);
    PairsFit(ps);
    PairsUnpair(ps);
    var size, kind, pairs := Bytes(I32, d.size), Bytes(U8, d.kind), AllBytes(ks, vs);
    Regroup(size, kind + pairs, rest);
    Regroup(kind, pairs, rest);
    BytesBack(I32, d.size, kind + (pairs + rest));
    BytesBack(U8, d.kind, pairs + rest);
    BytesBackAll(ks, vs, rest);
  }

  lemma SolverBack(d: Block, rest: seq<Byte>)
    requires BlockFits(d)
    ensures DecodeSolver(d.kind, EncodeSolver(d) + rest)
            == Some((if Complete(d.kind) then [Flag(d.isLinear), d.endoNbr, d.maxLag, d.maxLead, d.uCountInt]
                     else [0, 0, 0, 0, 0], rest))
  {
    if Complete(d.kind) {
      BytesBackAll(SOLVER_FIELDS, [Flag(d.isLinear), d.endoNbr, d.maxLag, d.maxLead, d.uCountInt], rest);
    } else {
      assert EncodeSolver(d) + rest == rest;
    }
  }

  lemma ListsBack(d: Block, rest: seq<Byte>)
    requires BlockFits(d) && Readable(d)
    ensures DecodeLists(EncodeLists(d) + rest)
            == Some(((Counts(d), d.detExogenous[..d.detExoSize], d.exogenous[..d.exoSize],
                      d.otherEndogenous[..d.otherEndoSize]), rest))
  {
    hide ReadAll, AllBytes;
    var v1, v2, v3 := d.detExogenous[..d.detExoSize], d.exogenous[..d.exoSize], d.otherEndogenous[..d.otherEndoSize];
    var c, det, exo, other := AllBytes(COUNT_FIELDS, Counts(d)), ListBytes(v1), ListBytes(v2), ListBytes(v3);
    Regroup(c, det + (exo + other), rest);
    Regroup(det, exo + other, rest);
    Regroup(exo, other, rest);
    BytesBackAll(COUNT_FIELDS, Counts(d), det + (exo + (other + rest)));
    BytesBackAll(Repeat(U32, |v1|), v1, exo + (other + rest));
    BytesBackAll(Repeat(U32, |v2|), v2, other + rest);
    BytesBackAll(Repeat(U32, |v3|), v3, rest);
  }

  /** The first n elements, or all where there are fewer. */
  function Take<T>(vs: seq<T>, n: int): seq<T> {
    if 0 <= n < |vs| then vs[..n] else vs
  }

  /** The part of a block header that the counts let through. */
  function Counted(d: Block): Block {
    d.(contains := Take(d.contains, d.size), detExogenous := Take(d.detExogenous, d.detExoSize),
       exogenous := Take(d.exogenous, d.exoSize), otherEndogenous := Take(d.otherEndogenous, d.otherEndoSize))
  }

  /** What comes back: names end at a NUL, vectors end at their counts, and the fields that are not stored for the type of
      block have their default. */
  function Restored(tag: Tag): Tag {
    match tag
    case Fixed(_, _) => tag
    case Call(numbers, name, argName) => Call(numbers, UpToNul(name), UpToNul(argName))
    case BeginBlock(d) =>
      BeginBlock(if Complete(d.kind) then Counted(d)
                 else Counted(d).(isLinear := false, endoNbr := 0, maxLag := 0, maxLead := 0, uCountInt := 0))
  }

  lemma BlockBack(d: Block, rest: seq<Byte>)
    requires BlockFits(d) && Readable(d)
    ensures DecodeBlock(EncodeBlock(d) + rest) == Some((Restored(BeginBlock(d)), rest))
  {
    hide DecodeContents, EncodeContents, DecodeSolver, EncodeSolver, DecodeLists, EncodeLists, BlockFits, Readable;
    var contents, solver, lists := EncodeContents(d), EncodeSolver(d), EncodeLists(d);
    Regroup(contents, solver + lists, rest);
    Regroup(solver, lists, rest);
    ContentsBack(d, solver + (lists + rest));
    SolverBack(d, lists + rest);
    ListsBack(d, rest);
    assert Counts(d)[1] == d.detExoSize;
    CountedWhole(d);
  }

  lemma CountedWhole(d: Block)
    requires BlockFits(d) && Readable(d)
    ensures Counted(d) == d.(contains := d.contains[..d.size], detExogenous := d.detExogenous[..d.detExoSize],
                             exogenous := d.exogenous[..d.exoSize],
                             otherEndogenous := d.otherEndogenous[..d.otherEndoSize])
  {
  }

  lemma CallBack(numbers: seq<int>, name: seq<Byte>, argName: seq<Byte>, rest: seq<Byte>)
    requires TagFits(Call(numbers, name, argName))
    ensures DecodeTag(Encode(Call(numbers, name, argName)) + rest)
            == Some((Restored(Call(numbers, name, argName)), rest))
  {
    hide ReadName, NameBytes, ReadAll, AllBytes;
    var n, f, a := AllBytes(CALL_NUMBERS, numbers), NameBytes(name), NameBytes(argName);
    var b := Encode(Call(numbers, name, argName)) + rest;
    assert b[1..] == n + (f + (a + rest));
    BytesBackAll(CALL_NUMBERS, numbers, f + (a + rest));
    NameBack(name, a + rest);
    NameBack(argName, rest);
  }

  /** An instruction is read back, with exactly its bytes. */
  lemma TagBack(tag: Tag, rest: seq<Byte>)
    requires TagFits(tag) && Writable(tag) && !WritesWrongCode(tag)
    ensures var b := Encode(tag) + rest;
            Known(b[0]) && DecodeTag(b) == Some((Restored(tag), rest))
  {
    hide EncodeBlock, DecodeBlock, AllBytes, ReadAll;
    var b := Encode(tag) + rest;
    match tag
    case Fixed(op, args) =>
      assert b[1..] == AllBytes(Layout(op).value, args) + rest;
      BytesBackAll(Layout(op).value, args, rest);
    case Call(numbers, name, argName) => CallBack(numbers, name, argName, rest);
    case BeginBlock(d) =>
      assert b[1..] == EncodeBlock(d) + rest;
      BlockBack(d, rest);
  }

  /** The instruction that stores the opcode of another one comes back as that one. */
  lemma WrongCode(args: seq<int>, rest: seq<Byte>)
    requires TagFits(Fixed(FSTPTEFDD, args))
    ensures var b := Encode(Fixed(FSTPTEFDD, args)) + rest;
            Known(b[0]) && DecodeTag(b).Some? && DecodeTag(b).value.0 == Fixed(FSTPTEF, [args[0]])
  {
    hide Read, Bytes, Fits;
    var b := Encode(Fixed(FSTPTEFDD, args)) + rest;
    var tail := AllBytes([U32, U32], args[1..]) + rest;
    assert [U32, U32, U32][1..] == [U32, U32];
    assert b[1..] == Bytes(U32, args[0]) + tail;
    BytesBack(U32, args[0], tail);
    assert [U32][1..] == [];
    assert ReadAll([], tail) == Some(([], tail));
  }

  lemma {:induction false} NoNul(name: seq<Byte>)
    ensures UpToNul(name) == name <==> 0 !in name
  {
    if name != [] {
      NoNul(name[1..]);
      assert name == [name[0]] + name[1..];
    }
  }

  lemma TakeAll<T>(vs: seq<T>, n: int)
    requires n >= 0
    ensures Take(vs, n) == vs <==> |vs| <= n
  {
  }

  /** An instruction that is written comes back as it was exactly when its names hold no NUL, the counts of a block header
      are the lengths of its vectors, and the fields that are not stored for its type of block have their default. */
  lemma RestoredSame(tag: Tag)
    requires TagFits(tag) && Writable(tag)
    ensures Restored(tag) == tag <==>
              && (tag.Call? ==> 0 !in tag.name && 0 !in tag.argName)
              && (tag.BeginBlock? ==>
                    && tag.block.size == |tag.block.contains| && tag.block.detExoSize == |tag.block.detExogenous|
                    && tag.block.exoSize == |tag.block.exogenous|
                    && tag.block.otherEndoSize == |tag.block.otherEndogenous|)
              && (tag.BeginBlock? && !Complete(tag.block.kind) ==>
                    !tag.block.isLinear && tag.block.endoNbr == 0 && tag.block.maxLag == 0 && tag.block.maxLead == 0
                    && tag.block.uCountInt == 0)
  {
    match tag
    case Fixed(_, _) =>
    case Call(_, name, argName) =>
      NoNul(name);
      NoNul(argName);
    case BeginBlock(d) =>
      TakeAll(d.contains, d.size);
      TakeAll(d.detExogenous, d.detExoSize);
      TakeAll(d.exogenous, d.exoSize);
      TakeAll(d.otherEndogenous, d.otherEndoSize);
  }

  function RestoredAll(tags: seq<Tag>): (r: seq<Tag>)
    ensures |r| == |tags| && forall i :: 0 <= i < |tags| ==> r[i] == Restored(tags[i])
  {
    seq(|tags|, i requires 0 <= i < |tags| => Restored(tags[i]))
  }

  predicate Program(tags: seq<Tag>) {
    && |tags| > 0 && tags[|tags| - 1] == End
    && (forall i :: 0 <= i < |tags| ==> TagFits(tags[i]))
    && (forall i :: 0 <= i < |tags| - 1 ==> tags[i] != End)
  }

  predicate WritesWrongCode(tag: Tag) {
    tag.Fixed? && tag.op == FSTPTEFDD
  }

  /** A program is written to its end and read back. */
  predicate ComesBack(tags: seq<Tag>, rest: seq<Byte>)
    requires forall i :: 0 <= i < |tags| ==> TagFits(tags[i])
  {
    EncodeAll(tags).Some? && DecodeAll(EncodeAll(tags).value + rest) == Some(RestoredAll(tags))
  }

  predicate Safe(tag: Tag) {
    Writable(tag) && !WritesWrongCode(tag)
  }

  /** A code file is written and read back, instruction by instruction, exactly when no block header has a count larger
      than its vector and the instruction that stores the opcode of another one is not used. */
  lemma {:induction false} RoundTrip(tags: seq<Tag>, rest: seq<Byte>)
    requires Program(tags)
    ensures ComesBack(tags, rest) <==> forall i :: 0 <= i < |tags| ==> Safe(tags[i])
  {
    hide TagFits, Encode, DecodeTag, Known, RestoredAll, Writable;
    RestoredFirst(tags);
    if Writable(tags[0]) && EncodeAll(tags[1..]).Some? {
      var next := EncodeAll(tags[1..]).value + rest;
      assert EncodeAll(tags).value + rest == Encode(tags[0]) + next;
      if WritesWrongCode(tags[0]) {
        WrongCode(tags[0].args, next);
      } else {
        TagBack(tags[0], next);
      }
    }
    if |tags| == 1 {
      assert RestoredAll(tags[1..]) == [] && RestoredAll(tags) == [End];
      assert Safe(End) by { EndWritable(); }
    } else {
      RoundTrip(tags[1..], rest);
      SafeTail(tags);
    }
  }

  lemma EndWritable()
    ensures Writable(End)
  {
  }

  lemma SafeTail(tags: seq<Tag>)
    requires tags != []
    ensures (forall i :: 0 <= i < |tags| ==> Safe(tags[i]))
            <==> Safe(tags[0]) && forall i :: 0 <= i < |tags[1..]| ==> Safe(tags[1..][i])
  {
    assert forall i :: 0 <= i < |tags[1..]| ==> tags[1..][i] == tags[i + 1];
    if Safe(tags[0]) && forall i :: 0 <= i < |tags[1..]| ==> Safe(tags[1..][i]) {
      forall i | 0 <= i < |tags| ensures Safe(tags[i]) {
        assert i > 0 ==> tags[i] == tags[1..][i - 1];
      }
    }
  }

  lemma RestoredFirst(tags: seq<Tag>)
    requires tags != []
    ensures RestoredAll(tags) == [Restored(tags[0])] + RestoredAll(tags[1..])
    ensures RestoredAll(tags)[0] == Restored(tags[0]) && RestoredAll(tags)[1..] == RestoredAll(tags[1..])
  {
  }

  // ----- the positions of the blocks

  /** The positions of the block headers in a list of instructions. */
  function BlockPositions(tags: seq<Tag>): seq<nat> {
    if tags == [] then []
    else
      var n := |tags| - 1;
      BlockPositions(tags[..n]) + if tags[n].BeginBlock? then [n] else []
  }

  /** They are exactly the positions of block headers. */
  lemma {:induction false} PositionsExact(tags: seq<Tag>, i: int)
    ensures i in BlockPositions(tags) <==> 0 <= i < |tags| && tags[i].BeginBlock?
  {
    if tags != [] {
      PositionsExact(tags[..|tags| - 1], i);
    }
  }

  /** They ascend. */
  lemma {:induction false} PositionsAscend(tags: seq<Tag>, i: nat, j: nat)
    requires i < j < |BlockPositions(tags)|
    ensures BlockPositions(tags)[i] < BlockPositions(tags)[j]
  {
    var init := BlockPositions(tags[..|tags| - 1]);
    if j < |init| {
      PositionsAscend(tags[..|tags| - 1], i, j);
    } else {
      assert init[i] in init;
      PositionsExact(tags[..|tags| - 1], init[i]);
    }
  }

  lemma {:induction false} PositionsRestored(tags: seq<Tag>)
    ensures BlockPositions(RestoredAll(tags)) == BlockPositions(tags)
  {
    if tags != [] {
      PositionsRestored(tags[..|tags| - 1]);
      assert RestoredAll(tags)[..|tags| - 1] == RestoredAll(tags[..|tags| - 1]);
    }
  }

  lemma NextPair(ps: seq<(int, int)>)
    requires AllPairsFit(ps) && ps != []
    ensures PairBytes(ps) == Bytes(I32, ps[0].0) + (Bytes(I32, ps[0].1) + PairBytes(ps[1..]))
  {
    var ks, vs := Repeat(I32, 2 * |ps|), Pairs(ps);
    PairsFit(ps);
    PairsFit(ps[1..]);
    hide Bytes, Fits;
    assert AllBytes(ks, vs) == Bytes(ks[0], vs[0]) + AllBytes(ks[1..], vs[1..]);
    assert AllBytes(ks[1..], vs[1..]) == Bytes(ks[1], vs[1]) + AllBytes(ks[1..][1..], vs[1..][1..]);
    assert ks[1..][1..] == Repeat(I32, 2 * |ps[1..]|);
    assert vs[1..][1..] == Pairs(ps[1..]);
  }

  lemma NextElement(vs: seq<int>)
    requires ListFits(vs) && vs != []
    ensures ListFits(vs[1..]) && Fits(U32, vs[0]) && ListBytes(vs) == Bytes(U32, vs[0]) + ListBytes(vs[1..])
  {
    hide Bytes, Fits;
    var ks := Repeat(U32, |vs|);
    assert ks[1..] == Repeat(U32, |vs[1..]|);
    forall i | 0 <= i < |vs[1..]| ensures Fits(U32, vs[1..][i]) {
      assert Fits(ks[i + 1], vs[i + 1]);
    }
    assert Fits(ks[0], vs[0]);
  }

  /** The stream to which the instructions are written. */
  class CodeStream {
    var bytes: seq<Byte>
    var instructionNumber: nat

    constructor ()
      ensures bytes == [] && instructionNumber == 0
    {
      bytes, instructionNumber := [], 0;
    }

    method PutList(ks: seq<Kind>, vs: seq<int>)
      requires AllFit(ks, vs)
      modifies `bytes
      ensures bytes == old(bytes) + AllBytes(ks, vs)
    {
      hide Bytes, Fits;
      for i := 0 to |vs|
        invariant bytes + AllBytes(ks[i..], vs[i..]) == old(bytes) + AllBytes(ks, vs)
      {
        assert ks[i..][1..] == ks[i + 1..] && vs[i..][1..] == vs[i + 1..];
        bytes := bytes + Bytes(ks[i], vs[i]);
      }
    }

    /** Writes the first `size` pairs; reading behind the end of the vector is reported as a failure. */
    method PutPairs(ps: seq<(int, int)>, size: nat) returns (ok: bool)
      requires AllPairsFit(ps)
      modifies `bytes
      ensures ok <==> size <= |ps|
      ensures ok ==> bytes == old(bytes) + PairBytes(ps[..size])
    {
      hide Bytes, Fits;
      ghost var kept := if size <= |ps| then ps[..size] else [];
      ok := true;
      assert kept[0..] == kept;
      for i := 0 to size
        invariant i <= |ps| && (size <= |ps| ==> bytes + PairBytes(kept[i..]) == old(bytes) + PairBytes(kept))
      {
        if i >= |ps| {
          return false;
        }
        if size <= |ps| {
          NextPair(kept[i..]);
          assert kept[i..][1..] == kept[i + 1..];
        }
        bytes := bytes + Bytes(I32, ps[i].0);
        bytes := bytes + Bytes(I32, ps[i].1);
      }
      assert kept[size..] == [] && PairBytes([]) == [];
    }

    /** Writes the first n elements, in the same way. */
    method PutCounted(vs: seq<int>, n: nat) returns (ok: bool)
      requires ListFits(vs)
      modifies `bytes
      ensures ok <==> n <= |vs|
      ensures ok ==> bytes == old(bytes) + ListBytes(vs[..n])
    {
      hide Bytes, Fits;
      ghost var kept := if n <= |vs| then vs[..n] else [];
      ok := true;
      assert kept[0..] == kept;
      for i := 0 to n
        invariant i <= |vs| && (n <= |vs| ==> bytes + ListBytes(kept[i..]) == old(bytes) + ListBytes(kept))
      {
        if i >= |vs| {
          return false;
        }
        if n <= |vs| {
          NextElement(kept[i..]);
          assert kept[i..][1..] == kept[i + 1..];
        }
        assert Fits(Repeat(U32, |vs|)[i], vs[i]);
        bytes := bytes + Bytes(U32, vs[i]);
      }
      assert kept[n..] == [] && ListBytes([]) == [];
    }

    /** Writes a block header, unless a count is larger than its vector. */
    method PutBlock(d: Block) returns (ok: bool)
      requires BlockFits(d)
      modifies `bytes
      ensures ok <==> Readable(d)
      ensures ok ==> bytes == old(bytes) + EncodeBlock(d)
    {
      hide AllBytes, PairBytes, Bytes;
      bytes := bytes + Bytes(I32, d.size);
      bytes := bytes + Bytes(U8, d.kind);
      ok := PutPairs(d.contains, d.size);
      if !ok {
        return;
      }
      ghost var middle := bytes;
      Regroup(old(bytes), Bytes(I32, d.size), Bytes(U8, d.kind));
      assert Readable(d) ==> middle == old(bytes) + EncodeContents(d);
      if Complete(d.kind) {
        PutList(SOLVER_FIELDS, [Flag(d.isLinear), d.endoNbr, d.maxLag, d.maxLead, d.uCountInt]);
      }
      assert bytes == middle + EncodeSolver(d);
      ghost var last := bytes;
      ok := PutLists(d);
      if ok {
        Regroup(old(bytes), EncodeContents(d), EncodeSolver(d) + EncodeLists(d));
        Regroup(middle, EncodeSolver(d), EncodeLists(d));
      }
    }

    method PutLists(d: Block) returns (ok: bool)
      requires BlockFits(d)
      modifies `bytes
      ensures ok <==> d.detExoSize <= |d.detExogenous| && d.exoSize <= |d.exogenous|
                      && d.otherEndoSize <= |d.otherEndogenous|
      ensures ok && d.size <= |d.contains| ==> bytes == old(bytes) + EncodeLists(d)
    {
      hide AllBytes;
      PutList(COUNT_FIELDS, Counts(d));
      ok := PutCounted(d.detExogenous, d.detExoSize);
      if !ok {
        return;
      }
      ok := PutCounted(d.exogenous, d.exoSize);
      if !ok {
        return;
      }
      ok := PutCounted(d.otherEndogenous, d.otherEndoSize);
    }

    method PutCall(numbers: seq<int>, name: seq<Byte>, argName: seq<Byte>)
      requires TagFits(Call(numbers, name, argName))
      modifies `bytes
      ensures bytes == old(bytes) + Encode(Call(numbers, name, argName))
    {
      hide AllBytes, NameBytes;
      bytes := bytes + [FCALL];
      PutList(CALL_NUMBERS, numbers);
      bytes := bytes + NameBytes(name);
      bytes := bytes + NameBytes(argName);
    }

    /** Writing an instruction appends its bytes and counts it, unless a count of a block header is larger than its
        vector. */
    method Write(tag: Tag) returns (ok: bool)
      requires TagFits(tag)
      modifies this
      ensures ok <==> Writable(tag)
      ensures ok ==> bytes == old(bytes) + Encode(tag) && instructionNumber == old(instructionNumber) + 1
    {
      hide AllBytes, EncodeBlock, NameBytes, Readable, BlockFits;
      ok := true;
      match tag {
        case Fixed(op, args) =>
          bytes := bytes + [StoredCode(op)];
          PutList(Layout(op).value, args);
        case Call(numbers, name, argName) => PutCall(numbers, name, argName);
        case BeginBlock(d) =>
          bytes := bytes + [FBEGINBLOCK];
          ok := PutBlock(d);
      }
      instructionNumber := instructionNumber + 1;
    }
  }

  /** The result of reading when some values have been read before. */
  function After(vs: seq<int>, r: Option<(seq<int>, seq<Byte>)>): Option<(seq<int>, seq<Byte>)> {
    if r.Some? then Some((vs + r.value.0, r.value.1)) else None
  }

  lemma AfterNone(ks: seq<Kind>, b: seq<Byte>)
    ensures ReadAll(ks, b) == After([], ReadAll(ks, b))
  {
    var r := ReadAll(ks, b);
    if r.Some? {
      assert [] + r.value.0 == r.value.0;
    }
  }

  lemma AfterAll(ks: seq<Kind>, vs: seq<int>, b: seq<Byte>)
    ensures After(vs, ReadAll(ks[|ks|..], b)) == Some((vs, b))
  {
    assert ks[|ks|..] == [] && vs + [] == vs;
  }

  lemma ReadStep(ks: seq<Kind>, i: nat, vs: seq<int>, b: seq<Byte>)
    requires i < |ks|
    ensures After(vs, ReadAll(ks[i..], b))
            == match Read(ks[i], b)
               case Some(v) => After(vs + [v.0], ReadAll(ks[i + 1..], v.1))
               case None => None
  {
    hide Read, AllFit;
    assert ks[i..][1..] == ks[i + 1..];
    var r := Read(ks[i], b);
    if r.Some? {
      var tail := ReadAll(ks[i + 1..], r.value.1);
      if tail.Some? {
        assert vs + ([r.value.0] + tail.value.0) == (vs + [r.value.0]) + tail.value.0;
      }
    }
  }

  /** The loader of a code file. */
  class CodeLoad {
    const file: seq<Byte>
    /** The position of the next byte. */
    var code: nat
    var nbBlocks: nat
    var beginBlock: seq<nat>

    constructor (file: seq<Byte>)
      ensures this.file == file && code == 0 && nbBlocks == 0 && beginBlock == []
    {
      this.file := file;
      code, nbBlocks, beginBlock := 0, 0, [];
    }

    function Rest(): seq<Byte>
      requires code <= |file|
      reads `code
    {
      file[code..]
    }

    /** The fields of an instruction, read one after the other. */
    method LoadFields(ks: seq<Kind>) returns (r: Option<seq<int>>)
      requires code <= |file|
      modifies `code
      ensures code <= |file|
      ensures ReadAll(ks, old(Rest())) == if r.Some? then Some((r.value, Rest())) else None
    {
      hide Read, AllFit, ReadAll;
      var vs: seq<int> := [];
      ghost var start := Rest();
      assert ks[0..] == ks;
      AfterNone(ks, start);
      for i := 0 to |ks|
        invariant code <= |file| && ReadAll(ks, start) == After(vs, ReadAll(ks[i..], Rest()))
      {
        ReadStep(ks, i, vs, Rest());
        var v := Read(ks[i], Rest());
        if v.None? {
          return None;
        }
        assert file[code + Width(ks[i])..] == v.value.1;
        vs, code := vs + [v.value.0], code + Width(ks[i]);
      }
      AfterAll(ks, vs, Rest());
      r := Some(vs);
    }

    method LoadName() returns (r: Option<seq<Byte>>)
      requires code <= |file|
      modifies `code
      ensures code <= |file|
      ensures ReadName(old(Rest())) == if r.Some? then Some((r.value, Rest())) else None
    {
      hide Read;
      var n := Read(I32, Rest());
      if n.None? {
        return None;
      }
      code := code + Width(I32);
      assert Rest() == n.value.1;
      var size := n.value.0;
      if size < 0 || |file| - code < size {
        return None;
      }
      r := Some(UpToNul(file[code..code + size]));
      assert Rest()[..size] == file[code..code + size] && Rest()[size..] == file[code + size..];
      code := code + size;
    }

    method LoadContents() returns (r: Option<(int, int, seq<(int, int)>)>)
      requires code <= |file|
      modifies `code
      ensures code <= |file|
      ensures DecodeContents(old(Rest())) == if r.Some? then Some((r.value, Rest())) else None
    {
      hide Read, ReadAll, AllFit;
      var n := Read(I32, Rest());
      if n.None? {
        return None;
      }
      code := code + Width(I32);
      assert Rest() == n.value.1;
      var kind := Read(U8, Rest());
      if kind.None? {
        return None;
      }
      code := code + Width(U8);
      assert Rest() == kind.value.1;
      var vs := LoadFields(Repeat(I32, if n.value.0 < 0 then 0 else 2 * n.value.0));
      r := if vs.Some? then Some((n.value.0, kind.value.0, Unpair(vs.value))) else None;
    }

    method LoadLists() returns (r: Option<(seq<int>, seq<int>, seq<int>, seq<int>)>)
      requires code <= |file|
      modifies `code
      ensures code <= |file|
      ensures DecodeLists(old(Rest())) == if r.Some? then Some((r.value, Rest())) else None
    {
      hide Read, ReadAll;
      var counts := LoadFields(COUNT_FIELDS);
      if counts.None? {
        return None;
      }
      var n := counts.value;
      assert Fits(COUNT_FIELDS[1], n[1]) && Fits(COUNT_FIELDS[2], n[2]) && Fits(COUNT_FIELDS[3], n[3]);
      var det := LoadFields(Repeat(U32, n[1]));
      if det.None? {
        return None;
      }
      var exo := LoadFields(Repeat(U32, n[2]));
      if exo.None? {
        return None;
      }
      var other := LoadFields(Repeat(U32, n[3]));
      r := if other.Some? then Some((n, det.value, exo.value, other.value)) else None;
    }

    /** A block header, behind its opcode. */
    method LoadBlock() returns (r: Option<Tag>)
      requires code <= |file|
      modifies `code
      ensures code <= |file|
      ensures DecodeBlock(old(Rest())) == if r.Some? then Some((r.value, Rest())) else None
    {
      hide DecodeContents, DecodeLists, ReadAll;
      var contents := LoadContents();
      if contents.None? {
        return None;
      }
      var solver: seq<int> := [0, 0, 0, 0, 0];
      if Complete(contents.value.1) {
        var fields := LoadFields(SOLVER_FIELDS);
        if fields.None? {
          return None;
        }
        solver := fields.value;
      }
      var lists := LoadLists();
      if lists.None? {
        return None;
      }
      var (counts, det, exo, other) := lists.value;
      var (size, kind, contains) := contents.value;
      r := Some(BeginBlock(Block(size, kind, contains, solver[0] != 0, solver[1], solver[2], solver[3], solver[4],
                                 counts[0], counts[1], counts[2], counts[3], counts[4], det, exo, other)));
    }

    /** A call of an external function, behind its opcode. */
    method LoadCall() returns (r: Option<Tag>)
      requires code <= |file|
      modifies `code
      ensures code <= |file|
      ensures DecodeCall(old(Rest())) == if r.Some? then Some((r.value, Rest())) else None
    {
      hide ReadAll, ReadName;
      var numbers := LoadFields(CALL_NUMBERS);
      if numbers.None? {
        return None;
      }
      var name := LoadName();
      if name.None? {
        return None;
      }
      var argName := LoadName();
      r := if argName.Some? then Some(Call(numbers.value, name.value, argName.value)) else None;
    }

    method LoadTag() returns (r: Option<Tag>)
      requires code < |file| && Known(file[code])
      modifies `code
      ensures code <= |file|
      ensures DecodeTag(old(Rest())) == if r.Some? then Some((r.value, Rest())) else None
    {
      hide ReadAll, DecodeBlock, DecodeCall;
      var op := file[code];
      assert Rest()[1..] == file[code + 1..];
      code := code + 1;
      if op == FBEGINBLOCK {
        r := LoadBlock();
      } else if op == FCALL {
        r := LoadCall();
      } else {
        var args := LoadFields(Layout(op).value);
        r := if args.Some? then Some(Fixed(op, args.value)) else None;
      }
    }

    /** Reads the whole file. None where the program would read behind the end of the file. The list of the positions of
        the blocks is not emptied before. */
    method GetOpCode() returns (r: Option<seq<Tag>>)
      modifies this
      ensures r == DecodeAll(file)
      ensures r.Some? ==> beginBlock == old(beginBlock) + BlockPositions(r.value)
      ensures r.Some? ==> nbBlocks == |BlockPositions(r.value)|
    {
      hide DecodeTag;
      code, nbBlocks := 0, 0;
      var tags, done := [], false;
      assert Rest() == file;
      AheadNone(DecodeAll(file));
      while !done
        invariant code <= |file| && nbBlocks == |BlockPositions(tags)|
        invariant beginBlock == old(beginBlock) + BlockPositions(tags)
        invariant DecodeAll(file) == if done then Some(tags) else Ahead(tags, DecodeAll(Rest()))
        decreases !done, |file| - code
      {
        if code == |file| {
          return None;
        }
        if !Known(file[code]) {
          AheadUnknown(tags, Rest());
          done := true;
        } else {
          ghost var before := Rest();
          var tag := LoadTag();
          if tag.None? {
            return None;
          }
          AheadMore(tags, tag.value, before, Rest());
          LastPosition(tags, tag.value);
          if tag.value.BeginBlock? {
            beginBlock, nbBlocks := beginBlock + [|tags|], nbBlocks + 1;
          }
          tags := tags + [tag.value];
          done := tag.value == End;
        }
      }
      r := Some(tags);
    }
  }

  function Ahead(tags: seq<Tag>, r: Option<seq<Tag>>): Option<seq<Tag>> {
    if r.Some? then Some(tags + r.value) else None
  }

  lemma AheadNone(r: Option<seq<Tag>>)
    ensures Ahead([], r) == r
  {
    if r.Some? {
      assert [] + r.value == r.value;
    }
  }

  lemma AheadUnknown(tags: seq<Tag>, b: seq<Byte>)
    requires b != [] && !Known(b[0])
    ensures Ahead(tags, DecodeAll(b)) == Some(tags)
  {
    assert tags + [] == tags;
  }

  lemma AheadMore(tags: seq<Tag>, tag: Tag, b: seq<Byte>, rest: seq<Byte>)
    requires b != [] && Known(b[0]) && DecodeTag(b) == Some((tag, rest))
    ensures Ahead(tags, DecodeAll(b))
            == if tag == End then Some(tags + [tag]) else Ahead(tags + [tag], DecodeAll(rest))
  {
    hide DecodeTag, Known;
    var r := DecodeAll(rest);
    if tag != End && r.Some? {
      assert tags + ([tag] + r.value) == (tags + [tag]) + r.value;
    }
  }

  lemma LastPosition(tags: seq<Tag>, tag: Tag)
    ensures BlockPositions(tags + [tag]) == BlockPositions(tags) + if tag.BeginBlock? then [|tags|] else []
  {
    assert (tags + [tag])[..|tags|] == tags;
  }
}
