/**
 The .pyro container: its layout as a serialiser, the loader as functions over the bytes
 and a cursor, and the round trip between them for both format versions.

 Offsets are unbounded here; the loader keeps them in an int, so files of 2 GiB and
 more are not part of this model.
 */
module Container {
  import opened Common
  import opened Bits
  import opened Cursor

  datatype Const = CInt(i: int) | CFloat(bits: nat) | CStr(s: Bytes) | CBool(b: bool)

  datatype Func = Func(name: nat, entry: nat, nparams: nat, nlocals: nat)

  datatype DebugEntry = DebugEntry(pc: nat, line: nat)

  datatype Asset = Asset(name: Bytes, data: Bytes)

  datatype Image = Image(
    version: nat,
    sandboxed: bool,
    consts: seq<Const>,
    funcs: seq<Func>,
    entryFn: nat,
    code: Bytes,
    debug: Option<seq<DebugEntry>>,
    assets: Option<seq<Asset>>,
    permissions: Option<Bytes>)

  datatype Fault =
    | BadMagic
    | BadVersion
    | Truncated(what: string, want: nat, at: nat)
    | UnknownTag
    | NameOutOfRange
    | EntryFnOutOfRange
    | EntryPastCode

  datatype Got<+T> = Got(value: T, next: nat) | Bad(fault: Fault)

  const MAGIC: Bytes := [80, 89, 82, 79]
  const TAG_INT: Byte := 1
  const TAG_FLT: Byte := 2
  const TAG_STR: Byte := 3
  const TAG_BOOL: Byte := 4
  const KEY: Byte := 0x5A

  // ---- Little-endian numbers ----

  function Pow256(w: nat): (r: nat)
    ensures r >= 1
  {
    if w == 0 then 1 else 256 * Pow256(w - 1)
  }

  function Le(n: nat, w: nat): (r: Bytes)
    ensures |r| == w
  {
    if w == 0 then [] else [n % 256] + Le(n / 256, w - 1)
  }

  function LeValue(s: Bytes, p: nat, w: nat): (n: nat)
    requires p + w <= |s|
    ensures n < Pow256(w)
    decreases w
  {
    if w == 0 then 0 else (s[p] as int) + 256 * LeValue(s, p + 1, w - 1)
  }

  lemma {:induction false} LeRead(s: Bytes, p: nat, n: nat, w: nat)
    requires StartsWith(s, p, Le(n, w)) && n < Pow256(w)
    ensures LeValue(s, p, w) == n
    decreases w
  {
    if w > 0 {
      Head(s, p, Le(n, w), 0);
      Divide(s, p, [n % 256], Le(n / 256, w - 1));
      LeRead(s, p + 1, n / 256, w - 1);
    }
  }

  /** The digit of weight 256^k is byte number k. */
  lemma {:induction false} LeDigit(n: nat, w: nat, k: nat)
    requires k < w
    ensures Le(n, w)[k] == n / Pow256(k) % 256
    decreases k
  {
    if k > 0 {
      LeDigit(n / 256, w - 1, k - 1);
      DivDiv(n, Pow256(k - 1));
    }
  }

  lemma DivDiv(n: nat, m: nat)
    requires m > 0
    ensures n / 256 / m == n / (256 * m)
  {
    var q := n / 256 / m;
    assert n / 256 == q * m + (n / 256) % m;
    var r := 256 * ((n / 256) % m) + n % 256;
    assert n == q * (256 * m) + r;
    assert (n / 256) % m <= m - 1;
    assert r < 256 * m;
    QuotientIs(n, 256 * m, q, r);
  }

  lemma QuotientIs(n: nat, d: nat, q: nat, r: nat)
    requires d > 0 && n == q * d + r && r < d
    ensures n / d == q
  {
    var e := n / d - q;
    assert e * d == (n / d) * d - q * d == r - n % d;
    assert e >= 1 ==> e * d >= d;
    assert e <= -1 ==> e * d + d <= 0;
  }

  /** Bytes are the `w` digits of `n` exactly if `n` is the number they stand for. */
  lemma {:induction false} LeIff(s: Bytes, p: nat, n: nat, w: nat)
    requires p + w <= |s| && n < Pow256(w)
    ensures StartsWith(s, p, Le(n, w)) <==> LeValue(s, p, w) == n
    decreases w
  {
    if w > 0 && LeValue(s, p, w) == n {
      LeIff(s, p + 1, n / 256, w - 1);
      assert s[p..p + w] == [s[p]] + s[p + 1..p + w];
    }
    if StartsWith(s, p, Le(n, w)) {
      LeRead(s, p, n, w);
    }
  }

  // ---- The rolling xor over the code ----

  function NextKey(k: Byte, plain: Byte): Byte {
    ((k as int) * 31 + 7 + plain as int) % 256
  }

  lemma XorByte(a: Byte, b: Byte)
    ensures Xor(a, b) < 256
  {
    assert Pow2(8) == 256 by {
      assert Pow2(4) == 16;
    }
    XorBelow(a, b, 8);
  }

  function ByteXor(a: Byte, b: Byte): Byte {
    XorByte(a, b);
    Xor(a, b)
  }

  function Encoded(plain: Bytes, k: Byte): (r: Bytes)
    ensures |r| == |plain|
  {
    if plain == [] then [] else [ByteXor(plain[0], k)] + Encoded(plain[1..], NextKey(k, plain[0]))
  }

  function Decoded(code: Bytes, k: Byte): (r: Bytes)
    ensures |r| == |code|
  {
    if code == [] then []
    else
      var b := ByteXor(code[0], k);
      [b] + Decoded(code[1..], NextKey(k, b))
  }

  /** Loading undoes encoding. */
  lemma {:induction false} DecodedEncoded(plain: Bytes, k: Byte)
    ensures Decoded(Encoded(plain, k), k) == plain
  {
    if plain != [] {
      XorTwice(plain[0], k);
      var e := Encoded(plain, k);
      assert e[1..] == Encoded(plain[1..], NextKey(k, plain[0]));
      DecodedEncoded(plain[1..], NextKey(k, plain[0]));
    }
  }

  lemma FirstByte()
    ensures ByteXor(80, 90) == 10
  {
    hide Xor;
    XorZero(0);
    XorUp(1, 1, 0);
    XorUp(2, 2, 0);
    XorUp(5, 5, 0);
    XorUp(10, 11, 0);
    XorUp(20, 22, 1);
    XorUp(40, 45, 2);
    XorUp(80, 90, 5);
  }

  lemma SecondByte()
    ensures ByteXor(121, 61) == 68
  {
    hide Xor;
    XorZero(0);
    XorUp(1, 0, 0);
    XorUp(3, 1, 1);
    XorUp(7, 3, 2);
    XorUp(15, 7, 4);
    XorUp(30, 15, 8);
    XorUp(60, 30, 17);
    XorUp(121, 61, 34);
  }

  lemma ThirdByte()
    ensures ByteXor(114, 227) == 145
  {
    hide Xor;
    XorZero(0);
    XorUp(0, 1, 0);
    XorUp(1, 3, 1);
    XorUp(3, 7, 2);
    XorUp(7, 14, 4);
    XorUp(14, 28, 9);
    XorUp(28, 56, 18);
    XorUp(57, 113, 36);
    XorUp(114, 227, 72);
  }

  /** Three bytes worked out: each key is 31 times the one before, plus 7, plus the byte in the clear. */
  lemma EncodedExample()
    ensures Encoded([80, 121, 114], KEY) == [10, 68, 145]
  {
    hide ByteXor;
    FirstByte();
    SecondByte();
    ThirdByte();
    assert [80, 121, 114][1..] == [121, 114] && [121, 114][1..] == [114];
    assert Encoded([114], 227) == [145] + Encoded([], NextKey(227, 114));
    assert Encoded([121, 114], 61) == [68] + Encoded([114], 227);
  }

  // ---- Serialiser ----

  function StrWidth(version: nat): nat {
    if version >= 3 then 4 else 2
  }

  predicate ConstFits(c: Const, version: nat) {
    match c
    case CInt(i) => IsInt64(i)
    case CFloat(bits) => bits < Pow256(8)
    case CStr(s) => |s| < Pow256(StrWidth(version))
    case CBool(_) => true
  }

  function ConstBytes(c: Const, version: nat): (r: Bytes)
    requires ConstFits(c, version)
    ensures |r| >= 1
  {
    match c
    case CInt(i) => [TAG_INT] + Le(Unsigned(i), 8)
    case CFloat(bits) => [TAG_FLT] + Le(bits, 8)
    case CStr(s) => [TAG_STR] + (Le(|s|, StrWidth(version)) + s)
    case CBool(b) => [TAG_BOOL] + [if b then 1 else 0]
  }

  function ConstsBytes(cs: seq<Const>, version: nat): (r: Bytes)
    requires forall i :: 0 <= i < |cs| ==> ConstFits(cs[i], version)
    ensures |r| >= |cs|
  {
    if cs == [] then [] else ConstBytes(cs[0], version) + ConstsBytes(cs[1..], version)
  }

  function FuncBytes(f: Func): Bytes {
    Le(f.name, 2) + (Le(f.entry, 4) + (Le(f.nparams, 1) + Le(f.nlocals, 2)))
  }

  predicate FuncFits(f: Func, nconsts: nat) {
    f.name < nconsts && f.entry < Pow256(4) && f.nparams < 256 && f.nlocals < Pow256(2)
  }

  function FuncsBytes(fs: seq<Func>): (r: Bytes)
    ensures |r| == 9 * |fs|
  {
    if fs == [] then [] else FuncBytes(fs[0]) + FuncsBytes(fs[1..])
  }

  function DebugBytes(ds: seq<DebugEntry>): (r: Bytes)
    ensures |r| == 8 * |ds|
  {
    if ds == [] then [] else Le(ds[0].pc, 4) + (Le(ds[0].line, 4) + DebugBytes(ds[1..]))
  }

  function AssetBytes(a: Asset): Bytes {
    Le(|a.name|, 4) + (a.name + (Le(|a.data|, 4) + a.data))
  }

  function AssetsBytes(assets: seq<Asset>): (r: Bytes)
    ensures |r| >= 8 * |assets|
  {
    if assets == [] then [] else AssetBytes(assets[0]) + AssetsBytes(assets[1..])
  }

  function Bit(b: bool, weight: nat): nat {
    if b then weight else 0
  }

  /** The flags byte; the signature bit may be set too and is not the loader's concern. */
  function Flags(m: Image, encoded: bool, signed: bool): (f: nat)
    ensures f < 64
  {
    Bit(encoded, 1) + Bit(m.debug.Some?, 2) + Bit(m.sandboxed, 4) + Bit(m.assets.Some?, 8) +
    Bit(m.permissions.Some?, 16) + Bit(signed, 32)
  }

  function HeaderPart(m: Image, encoded: bool, signed: bool): Bytes
    requires m.version < 256
  {
    MAGIC + [m.version, Flags(m, encoded, signed)]
  }

  function ConstPart(cs: seq<Const>, version: nat): Bytes
    requires forall i :: 0 <= i < |cs| ==> ConstFits(cs[i], version)
  {
    Le(|cs|, 2) + ConstsBytes(cs, version)
  }

  function FuncPart(fs: seq<Func>): Bytes {
    Le(|fs|, 2) + FuncsBytes(fs)
  }

  function CodePart(entryFn: nat, code: Bytes, encoded: bool): Bytes {
    Le(entryFn, 2) + (Le(|code|, 4) + if encoded then Encoded(code, KEY) else code)
  }

  function DebugPart(debug: Option<seq<DebugEntry>>): Bytes {
    match debug
    case None => []
    case Some(ds) => Le(|ds|, 4) + DebugBytes(ds)
  }

  function AssetPart(assets: Option<seq<Asset>>): Bytes {
    match assets
    case None => []
    case Some(s) => Le(|s|, 4) + AssetsBytes(s)
  }

  function PermissionPart(permissions: Option<Bytes>): Bytes {
    match permissions
    case None => []
    case Some(t) => Le(|t|, 4) + t
  }

  /** What the format can hold: every number fits its field, every index its table. */
  predicate Storable(m: Image) {
    && (m.version == 2 || m.version == 3)
    && |m.consts| < Pow256(2) && (forall i :: 0 <= i < |m.consts| ==> ConstFits(m.consts[i], m.version))
    && |m.funcs| < Pow256(2)
    && (forall i :: 0 <= i < |m.funcs| ==> FuncFits(m.funcs[i], |m.consts|) && m.funcs[i].entry <= |m.code|)
    && m.entryFn < |m.funcs| && |m.code| < Pow256(4)
    && (m.debug.Some? ==> DebugFits(m.debug.value))
    && (m.assets.Some? ==> AssetsFit(m.assets.value))
    && (m.permissions.Some? ==> |m.permissions.value| < Pow256(4))
  }

  predicate DebugFits(ds: seq<DebugEntry>) {
    |ds| < Pow256(4) && forall i :: 0 <= i < |ds| ==> ds[i].pc < Pow256(4) && ds[i].line < Pow256(4)
  }

  predicate AssetsFit(s: seq<Asset>) {
    |s| < Pow256(4) && forall i :: 0 <= i < |s| ==> |s[i].name| < Pow256(4) && |s[i].data| < Pow256(4)
  }

  function Serialise(m: Image, encoded: bool, signed: bool): Bytes
    requires Storable(m)
  {
    HeaderPart(m, encoded, signed) + (ConstPart(m.consts, m.version) + (FuncPart(m.funcs) +
    (CodePart(m.entryFn, m.code, encoded) + (DebugPart(m.debug) + (AssetPart(m.assets) +
     PermissionPart(m.permissions))))))
  }

  // ---- Loader ----

  /** rd_u8, rd_u16 and rd_u32. */
  function Rd(s: Bytes, p: nat, w: nat, what: string): (r: Got<nat>)
    ensures r.Got? ==> r.next == p + w <= |s| && r.value < Pow256(w)
    ensures p + w <= |s| ==> r == Got(LeValue(s, p, w), p + w)
  {
    if p + w <= |s| then Got(LeValue(s, p, w), p + w) else Bad(Truncated(what, w, p))
  }

  function Take(s: Bytes, p: nat, n: nat, what: string): (r: Got<Bytes>)
    ensures r.Got? ==> r.next == p + n <= |s|
  {
    if p + n <= |s| then Got(s[p..p + n], p + n) else Bad(Truncated(what, n, p))
  }

  function LoadStr(s: Bytes, p: nat, w: nat, lenWhat: string, what: string): (r: Got<Bytes>)
    ensures r.Got? ==> p <= r.next <= |s|
  {
    match Rd(s, p, w, lenWhat)
    case Bad(e) => Bad(e)
    case Got(n, q) => Take(s, q, n, what)
  }

  function LoadConst(s: Bytes, p: nat, version: nat): (r: Got<Const>)
    ensures r.Got? ==> p <= r.next <= |s|
  {
    match Rd(s, p, 1, "constant tag")
    case Bad(e) => Bad(e)
    case Got(tag, q) =>
      if tag == TAG_INT then
        match Rd(s, q, 8, "int constant")
        case Bad(e) => Bad(e)
        case Got(u, n) => (assert Pow256(8) == TWO_64; Got(CInt(Signed(u)), n))
      else if tag == TAG_FLT then
        match Rd(s, q, 8, "float constant")
        case Bad(e) => Bad(e)
        case Got(u, n) => Got(CFloat(u), n)
      else if tag == TAG_STR then
        match LoadStr(s, q, StrWidth(version), "string length", "string constant")
        case Bad(e) => Bad(e)
        case Got(t, n) => Got(CStr(t), n)
      else if tag == TAG_BOOL then
        match Rd(s, q, 1, "bool constant")
        case Bad(e) => Bad(e)
        case Got(b, n) => Got(CBool(b != 0), n)
      else Bad(UnknownTag)
  }

  function LoadConsts(s: Bytes, p: nat, version: nat, n: nat, acc: seq<Const>): (r: Got<seq<Const>>)
    requires p <= |s|
    ensures r.Got? ==> p <= r.next <= |s| && |r.value| == |acc| + n
    decreases n
  {
    if n == 0 then Got(acc, p)
    else
      match LoadConst(s, p, version)
      case Bad(e) => Bad(e)
      case Got(c, q) => LoadConsts(s, q, version, n - 1, acc + [c])
  }

  function LoadConstPart(s: Bytes, p: nat, version: nat): (r: Got<seq<Const>>)
    ensures r.Got? ==> p <= r.next <= |s|
  {
    match Rd(s, p, 2, "constant count")
    case Bad(e) => Bad(e)
    case Got(n, q) =>
      if q + n > |s| then Bad(Truncated("constant table", n, q)) else LoadConsts(s, q, version, n, [])
  }

  /** One function entry. The parameter count is read without a check of its own. */
  function LoadFunc(s: Bytes, p: nat, nconsts: nat): (r: Got<Func>)
    requires p + 9 <= |s|
    ensures r.Got? ==> r.next == p + 9
  {
    var name := LeValue(s, p, 2);
    if name >= nconsts then Bad(NameOutOfRange)
    else Got(Func(name, LeValue(s, p + 2, 4), s[p + 6], LeValue(s, p + 7, 2)), p + 9)
  }

  function LoadFuncs(s: Bytes, p: nat, nconsts: nat, n: nat, acc: seq<Func>): (r: Got<seq<Func>>)
    requires p + 9 * n <= |s|
    ensures r.Got? ==> r.next == p + 9 * n
    decreases n
  {
    if n == 0 then Got(acc, p)
    else
      match LoadFunc(s, p, nconsts)
      case Bad(e) => Bad(e)
      case Got(f, q) => LoadFuncs(s, q, nconsts, n - 1, acc + [f])
  }

  function LoadFuncPart(s: Bytes, p: nat, nconsts: nat): (r: Got<seq<Func>>)
    ensures r.Got? ==> p <= r.next <= |s|
  {
    match Rd(s, p, 2, "function count")
    case Bad(e) => Bad(e)
    case Got(n, q) =>
      if q + 9 * n > |s| then Bad(Truncated("function table", 9 * n, q)) else LoadFuncs(s, q, nconsts, n, [])
  }

  function LoadCodePart(s: Bytes, p: nat, nfuncs: nat, encoded: bool): (r: Got<(nat, Bytes)>)
    ensures r.Got? ==> p <= r.next <= |s|
  {
    match Rd(s, p, 2, "entry function")
    case Bad(e) => Bad(e)
    case Got(entryFn, q) =>
      if entryFn >= nfuncs then Bad(EntryFnOutOfRange)
      else
        match LoadStr(s, q, 4, "code length", "code section")
        case Bad(e) => Bad(e)
        case Got(code, n) => Got((entryFn, if encoded then Decoded(code, KEY) else code), n)
  }

  function LoadDebug(s: Bytes, p: nat, n: nat, acc: seq<DebugEntry>): (r: Got<seq<DebugEntry>>)
    requires p + 8 * n <= |s|
    ensures r.Got? && r.next == p + 8 * n
    decreases n
  {
    if n == 0 then Got(acc, p)
    else LoadDebug(s, p + 8, n - 1, acc + [DebugEntry(LeValue(s, p, 4), LeValue(s, p + 4, 4))])
  }

  function LoadDebugPart(s: Bytes, p: nat, present: bool): (r: Got<Option<seq<DebugEntry>>>)
    requires p <= |s|
    ensures r.Got? ==> p <= r.next <= |s|
  {
    if !present then Got(None, p)
    else
      match Rd(s, p, 4, "debug entry count")
      case Bad(e) => Bad(e)
      case Got(n, q) =>
        if q + 8 * n > |s| then Bad(Truncated("debug section", 8 * n, q))
        else
          var ds := LoadDebug(s, q, n, []);
          Got(Some(ds.value), ds.next)
  }

  function LoadAsset(s: Bytes, p: nat): (r: Got<Asset>)
    ensures r.Got? ==> p <= r.next <= |s|
  {
    match LoadStr(s, p, 4, "asset name length", "asset name")
    case Bad(e) => Bad(e)
    case Got(name, q) =>
      match LoadStr(s, q, 4, "asset data length", "asset data")
      case Bad(e) => Bad(e)
      case Got(data, n) => Got(Asset(name, data), n)
  }

  function LoadAssets(s: Bytes, p: nat, n: nat, acc: seq<Asset>): (r: Got<seq<Asset>>)
    requires p <= |s|
    ensures r.Got? ==> p <= r.next <= |s|
    decreases n
  {
    if n == 0 then Got(acc, p)
    else
      match LoadAsset(s, p)
      case Bad(e) => Bad(e)
      case Got(a, q) => LoadAssets(s, q, n - 1, acc + [a])
  }

  function LoadAssetPart(s: Bytes, p: nat, present: bool): (r: Got<Option<seq<Asset>>>)
    requires p <= |s|
    ensures r.Got? ==> p <= r.next <= |s|
  {
    if !present then Got(None, p)
    else
      match Rd(s, p, 4, "asset count")
      case Bad(e) => Bad(e)
      case Got(n, q) =>
        if q + 8 * n > |s| then Bad(Truncated("asset table", 8 * n, q))
        else
          match LoadAssets(s, q, n, [])
          case Bad(e) => Bad(e)
          case Got(a, k) => Got(Some(a), k)
  }

  function LoadPermissionPart(s: Bytes, p: nat, present: bool): (r: Got<Option<Bytes>>)
    requires p <= |s|
    ensures r.Got? ==> p <= r.next <= |s|
  {
    if !present then Got(None, p)
    else
      match LoadStr(s, p, 4, "permissions length", "permissions section")
      case Bad(e) => Bad(e)
      case Got(t, q) => Got(Some(t), q)
  }

  predicate HasBit(flags: nat, weight: nat)
    requires weight > 0
  {
    (flags / weight) % 2 == 1
  }

  /** load_program. */
  function Load(s: Bytes): Got<Image> {
    if |s| < 6 || s[..4] != MAGIC then Bad(BadMagic)
    else if s[4] != 2 && s[4] != 3 then Bad(BadVersion)
    else
      match LoadConstPart(s, 6, s[4])
      case Bad(e) => Bad(e)
      case Got(consts, p1) =>
        match LoadFuncPart(s, p1, |consts|)
        case Bad(e) => Bad(e)
        case Got(funcs, p2) =>
          match LoadCodePart(s, p2, |funcs|, HasBit(s[5], 1))
          case Bad(e) => Bad(e)
          case Got(code, p3) =>
            LoadTail(s, p3, s[5], Image(s[4], HasBit(s[5], 4), consts, funcs, code.0, code.1, None, None, None))
  }

  /** The optional sections, then the check across fields. */
  function LoadTail(s: Bytes, p: nat, flags: nat, m: Image): (r: Got<Image>)
    requires p <= |s|
  {
    match LoadDebugPart(s, p, HasBit(flags, 2))
    case Bad(e) => Bad(e)
    case Got(debug, p1) =>
      match LoadAssetPart(s, p1, HasBit(flags, 8))
      case Bad(e) => Bad(e)
      case Got(assets, p2) =>
        match LoadPermissionPart(s, p2, HasBit(flags, 16))
        case Bad(e) => Bad(e)
        case Got(permissions, p3) =>
          if exists i :: 0 <= i < |m.funcs| && m.funcs[i].entry > |m.code| then Bad(EntryPastCode)
          else Got(m.(debug := debug, assets := assets, permissions := permissions), p3)
  }

  // ---- Loading what was stored ----

  lemma RdLe(s: Bytes, p: nat, n: nat, w: nat, what: string)
    requires StartsWith(s, p, Le(n, w)) && n < Pow256(w)
    ensures Rd(s, p, w, what) == Got(n, p + w) && p + w <= |s| && LeValue(s, p, w) == n
  {
    LeRead(s, p, n, w);
  }

  lemma StrLoads(s: Bytes, p: nat, t: Bytes, w: nat, lenWhat: string, what: string)
    requires StartsWith(s, p, Le(|t|, w) + t) && |t| < Pow256(w)
    ensures LoadStr(s, p, w, lenWhat, what) == Got(t, p + w + |t|)
  {
    hide Le, LeValue, Rd, Pow256, StartsWith, Take;
    Divide(s, p, Le(|t|, w), t);
    RdLe(s, p, |t|, w, lenWhat);
    TakeLoads(s, p + w, t, what);
  }

  lemma TakeLoads(s: Bytes, p: nat, t: Bytes, what: string)
    requires StartsWith(s, p, t)
    ensures Take(s, p, |t|, what) == Got(t, p + |t|)
  {
  }

  lemma ConstLoads(s: Bytes, p: nat, c: Const, version: nat)
    requires ConstFits(c, version) && StartsWith(s, p, ConstBytes(c, version))
    ensures LoadConst(s, p, version) == Got(c, p + |ConstBytes(c, version)|)
  {
    hide Le, LeValue, StartsWith, LoadStr, Pow256;
    TagReads(s, p, c, version);
    match c
    case CInt(i) =>
      Divide(s, p, [TAG_INT], Le(Unsigned(i), 8));
      EightBytes();
      RdLe(s, p + 1, Unsigned(i), 8, "int constant");
    case CFloat(bits) =>
      Divide(s, p, [TAG_FLT], Le(bits, 8));
      RdLe(s, p + 1, bits, 8, "float constant");
    case CStr(t) =>
      Divide(s, p, [TAG_STR], Le(|t|, StrWidth(version)) + t);
      StrLoads(s, p + 1, t, StrWidth(version), "string length", "string constant");
    case CBool(b) =>
      Divide(s, p, [TAG_BOOL], [if b then 1 else 0]);
      ByteReads(s, p + 1, if b then 1 else 0, "bool constant");
  }

  lemma EightBytes()
    ensures Pow256(8) == TWO_64
  {
    assert Pow256(4) == 0x1_0000_0000;
  }

  lemma ByteReads(s: Bytes, p: nat, b: Byte, what: string)
    requires StartsWith(s, p, [b])
    ensures Rd(s, p, 1, what) == Got(b, p + 1)
  {
    Head(s, p, [b], 0);
    assert LeValue(s, p, 1) == s[p] + 256 * LeValue(s, p + 1, 0);
  }

  function TagOf(c: Const): Byte {
    match c
    case CInt(_) => TAG_INT
    case CFloat(_) => TAG_FLT
    case CStr(_) => TAG_STR
    case CBool(_) => TAG_BOOL
  }

  lemma TagReads(s: Bytes, p: nat, c: Const, version: nat)
    requires ConstFits(c, version) && StartsWith(s, p, ConstBytes(c, version))
    ensures Rd(s, p, 1, "constant tag") == Got(TagOf(c), p + 1)
  {
    var r := ConstBytes(c, version);
    assert r == [TagOf(c)] + r[1..];
    Divide(s, p, [TagOf(c)], r[1..]);
    ByteReads(s, p, TagOf(c), "constant tag");
  }

  lemma {:induction false} ConstsLoad(s: Bytes, p: nat, cs: seq<Const>, version: nat, acc: seq<Const>)
    requires forall i :: 0 <= i < |cs| ==> ConstFits(cs[i], version)
    requires StartsWith(s, p, ConstsBytes(cs, version))
    ensures p <= |s| && LoadConsts(s, p, version, |cs|, acc) == Got(acc + cs, p + |ConstsBytes(cs, version)|)
    decreases |cs|
  {
    hide LoadConst, ConstBytes, StartsWith;
    if cs == [] {
      Within(s, p, []);
      assert acc + cs == acc;
    } else {
      Divide(s, p, ConstBytes(cs[0], version), ConstsBytes(cs[1..], version));
      ConstLoads(s, p, cs[0], version);
      ConstsLoad(s, p + |ConstBytes(cs[0], version)|, cs[1..], version, acc + [cs[0]]);
      assert acc + [cs[0]] + cs[1..] == acc + cs;
    }
  }

  lemma Within(s: Bytes, p: nat, t: Bytes)
    requires StartsWith(s, p, t)
    ensures p + |t| <= |s|
  {
  }

  lemma ConstPartLoads(s: Bytes, p: nat, cs: seq<Const>, version: nat)
    requires |cs| < Pow256(2) && forall i :: 0 <= i < |cs| ==> ConstFits(cs[i], version)
    requires StartsWith(s, p, ConstPart(cs, version))
    ensures LoadConstPart(s, p, version) == Got(cs, p + |ConstPart(cs, version)|)
  {
    hide LoadConsts, ConstsBytes, LeValue, Le, StartsWith, Pow256;
    Divide(s, p, Le(|cs|, 2), ConstsBytes(cs, version));
    RdLe(s, p, |cs|, 2, "constant count");
    Within(s, p + 2, ConstsBytes(cs, version));
    ConstsLoad(s, p + 2, cs, version, []);
    assert [] + cs == cs;
  }

  lemma FuncLoads(s: Bytes, p: nat, f: Func, nconsts: nat)
    requires FuncFits(f, nconsts) && nconsts < Pow256(2) && StartsWith(s, p, FuncBytes(f))
    ensures p + 9 <= |s| && LoadFunc(s, p, nconsts) == Got(f, p + 9)
  {
    hide Le, LeValue, StartsWith, Pow256;
    Divide(s, p, Le(f.name, 2), Le(f.entry, 4) + (Le(f.nparams, 1) + Le(f.nlocals, 2)));
    Divide(s, p + 2, Le(f.entry, 4), Le(f.nparams, 1) + Le(f.nlocals, 2));
    Divide(s, p + 6, Le(f.nparams, 1), Le(f.nlocals, 2));
    RdLe(s, p, f.name, 2, "");
    RdLe(s, p + 2, f.entry, 4, "");
    OneByte(f.nparams);
    Head(s, p + 6, Le(f.nparams, 1), 0);
    RdLe(s, p + 7, f.nlocals, 2, "");
  }

  lemma OneByte(n: nat)
    requires n < 256
    ensures Le(n, 1) == [n]
  {
    assert Le(n / 256, 0) == [];
  }

  lemma {:induction false} FuncsLoad(s: Bytes, p: nat, fs: seq<Func>, nconsts: nat, acc: seq<Func>)
    requires nconsts < Pow256(2) && forall i :: 0 <= i < |fs| ==> FuncFits(fs[i], nconsts)
    requires StartsWith(s, p, FuncsBytes(fs))
    ensures p + 9 * |fs| <= |s| && LoadFuncs(s, p, nconsts, |fs|, acc) == Got(acc + fs, p + 9 * |fs|)
    decreases |fs|
  {
    hide LoadFunc, FuncBytes, StartsWith, FuncFits, Pow256;
    Within(s, p, FuncsBytes(fs));
    if fs == [] {
      assert acc + fs == acc;
    } else {
      Divide(s, p, FuncBytes(fs[0]), FuncsBytes(fs[1..]));
      FuncLoads(s, p, fs[0], nconsts);
      FuncLength(fs[0]);
      FuncsLoad(s, p + 9, fs[1..], nconsts, acc + [fs[0]]);
      assert acc + [fs[0]] + fs[1..] == acc + fs;
    }
  }

  lemma FuncLength(f: Func)
    ensures |FuncBytes(f)| == 9
  {
  }

  lemma FuncPartLoads(s: Bytes, p: nat, fs: seq<Func>, nconsts: nat)
    requires |fs| < Pow256(2) && nconsts < Pow256(2) && forall i :: 0 <= i < |fs| ==> FuncFits(fs[i], nconsts)
    requires StartsWith(s, p, FuncPart(fs))
    ensures LoadFuncPart(s, p, nconsts) == Got(fs, p + |FuncPart(fs)|)
  {
    hide LoadFuncs, FuncsBytes, LeValue, Le, StartsWith, FuncFits, Pow256;
    Divide(s, p, Le(|fs|, 2), FuncsBytes(fs));
    RdLe(s, p, |fs|, 2, "function count");
    FuncsLoad(s, p + 2, fs, nconsts, []);
    assert [] + fs == fs;
  }

  lemma CodePartLoads(s: Bytes, p: nat, entryFn: nat, code: Bytes, nfuncs: nat, encoded: bool)
    requires entryFn < nfuncs < Pow256(2) && |code| < Pow256(4) && StartsWith(s, p, CodePart(entryFn, code, encoded))
    ensures LoadCodePart(s, p, nfuncs, encoded) == Got((entryFn, code), p + |CodePart(entryFn, code, encoded)|)
  {
    hide LeValue, Le, StartsWith, Pow256, LoadStr, Encoded, Decoded;
    var stored := if encoded then Encoded(code, KEY) else code;
    Divide(s, p, Le(entryFn, 2), Le(|code|, 4) + stored);
    RdLe(s, p, entryFn, 2, "entry function");
    StrLoads(s, p + 2, stored, 4, "code length", "code section");
    DecodedEncoded(code, KEY);
  }

  lemma {:induction false} DebugLoads(s: Bytes, p: nat, ds: seq<DebugEntry>, acc: seq<DebugEntry>)
    requires forall i :: 0 <= i < |ds| ==> ds[i].pc < Pow256(4) && ds[i].line < Pow256(4)
    requires StartsWith(s, p, DebugBytes(ds))
    ensures p + 8 * |ds| <= |s| && LoadDebug(s, p, |ds|, acc) == Got(acc + ds, p + 8 * |ds|)
    decreases |ds|
  {
    hide LeValue, Le, StartsWith, Pow256;
    Within(s, p, DebugBytes(ds));
    if ds == [] {
      assert acc + ds == acc;
    } else {
      var rest := DebugBytes(ds[1..]);
      Divide(s, p, Le(ds[0].pc, 4), Le(ds[0].line, 4) + rest);
      Divide(s, p + 4, Le(ds[0].line, 4), rest);
      RdLe(s, p, ds[0].pc, 4, "");
      RdLe(s, p + 4, ds[0].line, 4, "");
      DebugLoads(s, p + 8, ds[1..], acc + [ds[0]]);
      assert acc + [ds[0]] + ds[1..] == acc + ds;
    }
  }

  lemma DebugPartLoads(s: Bytes, p: nat, debug: Option<seq<DebugEntry>>)
    requires p <= |s| && (debug.Some? ==> DebugFits(debug.value)) && StartsWith(s, p, DebugPart(debug))
    ensures LoadDebugPart(s, p, debug.Some?) == Got(debug, p + |DebugPart(debug)|)
  {
    hide LeValue, Le, StartsWith, Pow256, LoadDebug, DebugBytes;
    if debug.Some? {
      var ds := debug.value;
      Divide(s, p, Le(|ds|, 4), DebugBytes(ds));
      RdLe(s, p, |ds|, 4, "debug entry count");
      DebugLoads(s, p + 4, ds, []);
      assert [] + ds == ds;
    }
  }

  lemma AssetLoads(s: Bytes, p: nat, a: Asset)
    requires |a.name| < Pow256(4) && |a.data| < Pow256(4) && StartsWith(s, p, AssetBytes(a))
    ensures LoadAsset(s, p) == Got(a, p + |AssetBytes(a)|)
  {
    hide LeValue, Le, StartsWith, Pow256, LoadStr;
    var second := Le(|a.data|, 4) + a.data;
    assert AssetBytes(a) == (Le(|a.name|, 4) + a.name) + second;
    Divide(s, p, Le(|a.name|, 4) + a.name, second);
    StrLoads(s, p, a.name, 4, "asset name length", "asset name");
    StrLoads(s, p + 4 + |a.name|, a.data, 4, "asset data length", "asset data");
  }

  lemma {:induction false} AssetsLoad(s: Bytes, p: nat, assets: seq<Asset>, acc: seq<Asset>)
    requires forall i :: 0 <= i < |assets| ==> |assets[i].name| < Pow256(4) && |assets[i].data| < Pow256(4)
    requires StartsWith(s, p, AssetsBytes(assets))
    ensures p + |AssetsBytes(assets)| <= |s|
    ensures LoadAssets(s, p, |assets|, acc) == Got(acc + assets, p + |AssetsBytes(assets)|)
    decreases |assets|
  {
    hide StartsWith, Pow256, LoadAsset, AssetBytes;
    Within(s, p, AssetsBytes(assets));
    if assets == [] {
      assert acc + assets == acc;
    } else {
      Divide(s, p, AssetBytes(assets[0]), AssetsBytes(assets[1..]));
      AssetLoads(s, p, assets[0]);
      AssetsLoad(s, p + |AssetBytes(assets[0])|, assets[1..], acc + [assets[0]]);
      assert acc + [assets[0]] + assets[1..] == acc + assets;
    }
  }

  lemma AssetPartLoads(s: Bytes, p: nat, assets: Option<seq<Asset>>)
    requires p <= |s| && (assets.Some? ==> AssetsFit(assets.value)) && StartsWith(s, p, AssetPart(assets))
    ensures LoadAssetPart(s, p, assets.Some?) == Got(assets, p + |AssetPart(assets)|)
  {
    hide LeValue, Le, StartsWith, Pow256, LoadAssets, AssetsBytes;
    if assets.Some? {
      var a := assets.value;
      Divide(s, p, Le(|a|, 4), AssetsBytes(a));
      RdLe(s, p, |a|, 4, "asset count");
      AssetsLoad(s, p + 4, a, []);
      assert [] + a == a;
    }
  }

  lemma PermissionPartLoads(s: Bytes, p: nat, permissions: Option<Bytes>)
    requires p <= |s| && (permissions.Some? ==> |permissions.value| < Pow256(4))
    requires StartsWith(s, p, PermissionPart(permissions))
    ensures LoadPermissionPart(s, p, permissions.Some?) == Got(permissions, p + |PermissionPart(permissions)|)
  {
    hide Le, StartsWith, Pow256, LoadStr;
    if permissions.Some? {
      StrLoads(s, p, permissions.value, 4, "permissions length", "permissions section");
    }
  }

  lemma FlagBits(m: Image, encoded: bool, signed: bool)
    ensures var f := Flags(m, encoded, signed);
            && HasBit(f, 1) == encoded && HasBit(f, 2) == m.debug.Some? && HasBit(f, 4) == m.sandboxed
            && HasBit(f, 8) == m.assets.Some? && HasBit(f, 16) == m.permissions.Some?
  {
  }

  lemma HeaderLoads(s: Bytes, m: Image, encoded: bool, signed: bool)
    requires m.version < 256 && StartsWith(s, 0, HeaderPart(m, encoded, signed))
    ensures |s| >= 6 && s[..4] == MAGIC && s[4] == m.version && s[5] == Flags(m, encoded, signed)
  {
    hide Flags;
    var h := HeaderPart(m, encoded, signed);
    assert |h| == 6;
    Head(s, 0, h, 4);
    Head(s, 0, h, 5);
    assert s[..6] == s[0..0 + |h|] == h;
    assert s[..4] == s[..6][..4];
  }

  lemma TailLoads(s: Bytes, p: nat, flags: nat, m: Image, full: Image)
    requires p <= |s| && m == full.(debug := None, assets := None, permissions := None)
    requires (full.debug.Some? ==> DebugFits(full.debug.value)) && (full.assets.Some? ==> AssetsFit(full.assets.value))
    requires full.permissions.Some? ==> |full.permissions.value| < Pow256(4)
    requires forall i :: 0 <= i < |full.funcs| ==> full.funcs[i].entry <= |full.code|
    requires HasBit(flags, 2) == full.debug.Some? && HasBit(flags, 8) == full.assets.Some?
    requires HasBit(flags, 16) == full.permissions.Some?
    requires StartsWith(s, p, DebugPart(full.debug) + (AssetPart(full.assets) + PermissionPart(full.permissions)))
    ensures LoadTail(s, p, flags, m) ==
              Got(full, p + |DebugPart(full.debug)| + |AssetPart(full.assets)| + |PermissionPart(full.permissions)|)
  {
    hide StartsWith, HasBit, DebugPart, AssetPart, PermissionPart, LoadDebugPart, LoadAssetPart, LoadPermissionPart,
         Pow256, DebugFits, AssetsFit;
    Divide(s, p, DebugPart(full.debug), AssetPart(full.assets) + PermissionPart(full.permissions));
    DebugPartLoads(s, p, full.debug);
    var p1 := p + |DebugPart(full.debug)|;
    Within(s, p, DebugPart(full.debug));
    Divide(s, p1, AssetPart(full.assets), PermissionPart(full.permissions));
    AssetPartLoads(s, p1, full.assets);
    Within(s, p1, AssetPart(full.assets));
    PermissionPartLoads(s, p1 + |AssetPart(full.assets)|, full.permissions);
  }

  /**
   The round trip: for every storable image, of either version, with the code section in
   the clear or encoded, loading its serialisation gives the image back, with the cursor
   right behind it. Bytes after it, such as a signature, change nothing.
   */
  lemma LoadSerialised(m: Image, encoded: bool, signed: bool, trailing: Bytes)
    requires Storable(m)
    ensures Load(Serialise(m, encoded, signed) + trailing) == Got(m, |Serialise(m, encoded, signed)|)
  {
    hide StartsWith, HasBit, Flags, HeaderPart, ConstPart, FuncPart, CodePart, DebugPart, AssetPart, PermissionPart,
         LoadConstPart, LoadFuncPart, LoadCodePart, LoadTail, Pow256, ConstFits, FuncFits, DebugFits, AssetsFit;
    var all := Serialise(m, encoded, signed);
    var s := all + trailing;
    Prefix(all, trailing);
    var tail := DebugPart(m.debug) + (AssetPart(m.assets) + PermissionPart(m.permissions));
    var code := CodePart(m.entryFn, m.code, encoded);
    var funcs := FuncPart(m.funcs);
    var consts := ConstPart(m.consts, m.version);
    Divide(s, 0, HeaderPart(m, encoded, signed), consts + (funcs + (code + tail)));
    HeaderLoads(s, m, encoded, signed);
    HeaderLength(m, encoded, signed);
    FlagBits(m, encoded, signed);
    Divide(s, 6, consts, funcs + (code + tail));
    ConstPartLoads(s, 6, m.consts, m.version);
    var p1 := 6 + |consts|;
    Divide(s, p1, funcs, code + tail);
    FuncPartLoads(s, p1, m.funcs, |m.consts|);
    var p2 := p1 + |funcs|;
    Divide(s, p2, code, tail);
    CodePartLoads(s, p2, m.entryFn, m.code, |m.funcs|, encoded);
    var p3 := p2 + |code|;
    Within(s, p2, code);
    TailLoads(s, p3, s[5], m.(debug := None, assets := None, permissions := None), m);
  }

  lemma Prefix(a: Bytes, b: Bytes)
    ensures StartsWith(a + b, 0, a)
  {
  }

  lemma HeaderLength(m: Image, encoded: bool, signed: bool)
    requires m.version < 256
    ensures |HeaderPart(m, encoded, signed)| == 6
  {
  }
}
