/**
 load_program as it runs: a cursor advanced over the file by bounds-checked reads, tables
 filled by loops, the code decoded in place. Every read of `data` is inside the file, the
 parameter count included, which has no check of its own.
 */
module Loader {
  import opened Common
  import opened Bits
  import opened Cursor
  import opened Container

  lemma DecodedStep(code: Bytes, i: nat, k: Byte)
    requires i < |code|
    ensures var b := ByteXor(code[i], k);
            Decoded(code[i..], k) == [b] + Decoded(code[i + 1..], NextKey(k, b))
  {
    assert code[i..][1..] == code[i + 1..];
  }

  /** xor_decode, in place. */
  method XorDecode(code: array<Byte>)
    modifies code
    ensures code[..] == Decoded(old(code[..]), KEY)
  {
    hide Decoded, ByteXor, NextKey;
    ghost var was := code[..];
    assert was[0..] == was;
    var k, i := KEY, 0;
    while i < code.Length
      invariant i <= code.Length
      invariant code[i..] == was[i..]
      invariant code[..i] + Decoded(was[i..], k) == Decoded(was, KEY)
    {
      var dec := ByteXor(code[i], k);
      ghost var before := code[..i];
      assert code[i] == code[i..][0] == was[i];
      DecodedStep(was, i, k);
      code[i] := dec;
      k := NextKey(k, dec);
      i := i + 1;
      assert code[..i] == before + [dec];
    }
    DecodedNone(k);
    assert code[..i] == code[..] && was[i..] == [];
  }

  lemma DecodedNone(k: Byte)
    ensures Decoded([], k) == []
  {
  }

  class File {
    const data: Bytes
    var pos: nat

    constructor (data: Bytes)
      ensures this.data == data && pos == 0
    {
      this.data, pos := data, 0;
    }

    method ReadLe(w: nat) returns (v: nat)
      requires pos + w <= |data|
      modifies this
      ensures v == LeValue(data, old(pos), w) && pos == old(pos) + w
      decreases w
    {
      if w == 0 {
        return 0;
      }
      var low := data[pos];
      pos := pos + 1;
      var high := ReadLe(w - 1);
      v := low + 256 * high;
    }

    /** need_bytes, then the read. */
    method Read(w: nat, what: string) returns (r: Got<nat>)
      modifies this
      ensures r == Rd(data, old(pos), w, what) && (r.Got? ==> pos == r.next)
    {
      if pos > |data| || w > |data| - pos {
        return Bad(Truncated(what, w, pos));
      }
      var v := ReadLe(w);
      r := Got(v, pos);
    }

    method ReadStr(w: nat, lenWhat: string, what: string) returns (r: Got<Bytes>)
      modifies this
      ensures r == LoadStr(data, old(pos), w, lenWhat, what) && (r.Got? ==> pos == r.next)
    {
      hide LeValue, Pow256;
      var n := Read(w, lenWhat);
      if n.Bad? {
        return Bad(n.fault);
      }
      if n.value > |data| - pos {
        return Bad(Truncated(what, n.value, pos));
      }
      var s := data[pos..pos + n.value];
      pos := pos + n.value;
      r := Got(s, pos);
    }

    method ReadConst(version: nat) returns (r: Got<Const>)
      modifies this
      ensures r == LoadConst(data, old(pos), version) && (r.Got? ==> pos == r.next)
    {
      hide Rd, LeValue, LoadStr, Pow256;
      var tag := Read(1, "constant tag");
      if tag.Bad? {
        return Bad(tag.fault);
      }
      if tag.value == TAG_INT {
        var u := Read(8, "int constant");
        EightBytes();
        return if u.Bad? then Bad(u.fault) else Got(CInt(Signed(u.value)), pos);
      }
      if tag.value == TAG_FLT {
        var u := Read(8, "float constant");
        return if u.Bad? then Bad(u.fault) else Got(CFloat(u.value), pos);
      }
      if tag.value == TAG_STR {
        var t := ReadStr(StrWidth(version), "string length", "string constant");
        return if t.Bad? then Bad(t.fault) else Got(CStr(t.value), pos);
      }
      if tag.value == TAG_BOOL {
        var b := Read(1, "bool constant");
        return if b.Bad? then Bad(b.fault) else Got(CBool(b.value != 0), pos);
      }
      r := Bad(UnknownTag);
    }

    method ReadConsts(version: nat) returns (r: Got<seq<Const>>)
      modifies this
      ensures r == LoadConstPart(data, old(pos), version) && (r.Got? ==> pos == r.next)
    {
      hide Rd, LoadConst, LeValue, Pow256;
      var n := Read(2, "constant count");
      if n.Bad? {
        return Bad(n.fault);
      }
      if n.value > |data| - pos {
        return Bad(Truncated("constant table", n.value, pos));
      }
      ghost var start := pos;
      var consts, i := [], 0;
      while i < n.value
        invariant i <= n.value && start <= pos <= |data|
        invariant LoadConsts(data, pos, version, n.value - i, consts) == LoadConsts(data, start, version, n.value, [])
      {
        var c := ReadConst(version);
        if c.Bad? {
          return Bad(c.fault);
        }
        consts := consts + [c.value];
        i := i + 1;
      }
      r := Got(consts, pos);
    }

    method ReadFuncs(nconsts: nat) returns (r: Got<seq<Func>>)
      modifies this
      ensures r == LoadFuncPart(data, old(pos), nconsts) && (r.Got? ==> pos == r.next)
    {
      hide Rd, LoadFunc, LeValue, Pow256;
      var n := Read(2, "function count");
      if n.Bad? {
        return Bad(n.fault);
      }
      if 9 * n.value > |data| - pos {
        return Bad(Truncated("function table", 9 * n.value, pos));
      }
      ghost var start := pos;
      var funcs, i := [], 0;
      while i < n.value
        invariant i <= n.value && pos + 9 * (n.value - i) <= |data|
        invariant LoadFuncs(data, pos, nconsts, n.value - i, funcs) == LoadFuncs(data, start, nconsts, n.value, [])
      {
        var f := ReadFunc(nconsts);
        if f.Bad? {
          return Bad(f.fault);
        }
        funcs := funcs + [f.value];
        i := i + 1;
      }
      r := Got(funcs, pos);
    }

    /** One entry of the table whose 9 bytes have been checked for. */
    method ReadFunc(nconsts: nat) returns (r: Got<Func>)
      requires pos + 9 <= |data|
      modifies this
      ensures r == LoadFunc(data, old(pos), nconsts) && (r.Got? ==> pos == r.next)
    {
      hide LeValue, Pow256;
      var name := Read(2, "function name index");
      if name.value >= nconsts {
        return Bad(NameOutOfRange);
      }
      var entry := Read(4, "function entry");
      var nparams := data[pos];
      pos := pos + 1;
      var nlocals := Read(2, "function locals");
      r := Got(Func(name.value, entry.value, nparams, nlocals.value), pos);
    }

    method ReadCode(nfuncs: nat, encoded: bool) returns (r: Got<(nat, Bytes)>)
      modifies this
      ensures r == LoadCodePart(data, old(pos), nfuncs, encoded) && (r.Got? ==> pos == r.next)
    {
      hide Rd, LeValue, Pow256, LoadStr, Decoded;
      var entryFn := Read(2, "entry function");
      if entryFn.Bad? {
        return Bad(entryFn.fault);
      }
      if entryFn.value >= nfuncs {
        return Bad(EntryFnOutOfRange);
      }
      var stored := ReadStr(4, "code length", "code section");
      if stored.Bad? {
        return Bad(stored.fault);
      }
      var code := new Byte[|stored.value|](i requires 0 <= i < |stored.value| => stored.value[i]);
      assert code[..] == stored.value;
      if encoded {
        XorDecode(code);
      }
      r := Got((entryFn.value, code[..]), pos);
    }

    method ReadDebug(present: bool) returns (r: Got<Option<seq<DebugEntry>>>)
      requires pos <= |data|
      modifies this
      ensures r == LoadDebugPart(data, old(pos), present) && (r.Got? ==> pos == r.next)
    {
      hide LeValue, Pow256;
      if !present {
        return Got(None, pos);
      }
      var n := Read(4, "debug entry count");
      if n.Bad? {
        return Bad(n.fault);
      }
      if 8 * n.value > |data| - pos {
        return Bad(Truncated("debug section", 8 * n.value, pos));
      }
      ghost var start := pos;
      var ds, i := [], 0;
      while i < n.value
        invariant i <= n.value && pos + 8 * (n.value - i) <= |data|
        invariant LoadDebug(data, pos, n.value - i, ds) == LoadDebug(data, start, n.value, [])
      {
        var pc := Read(4, "debug pc");
        var line := Read(4, "debug line");
        ds := ds + [DebugEntry(pc.value, line.value)];
        i := i + 1;
      }
      r := Got(Some(ds), pos);
    }

    method ReadAssets(present: bool) returns (r: Got<Option<seq<Asset>>>)
      requires pos <= |data|
      modifies this
      ensures r == LoadAssetPart(data, old(pos), present) && (r.Got? ==> pos == r.next)
    {
      hide Rd, LoadAsset, LeValue, Pow256;
      if !present {
        return Got(None, pos);
      }
      var n := Read(4, "asset count");
      if n.Bad? {
        return Bad(n.fault);
      }
      if 8 * n.value > |data| - pos {
        return Bad(Truncated("asset table", 8 * n.value, pos));
      }
      ghost var start := pos;
      var assets, i := [], 0;
      while i < n.value
        invariant i <= n.value && pos <= |data|
        invariant LoadAssets(data, pos, n.value - i, assets) == LoadAssets(data, start, n.value, [])
      {
        var a := ReadAsset();
        if a.Bad? {
          return Bad(a.fault);
        }
        assets := assets + [a.value];
        i := i + 1;
      }
      r := Got(Some(assets), pos);
    }

    method ReadAsset() returns (r: Got<Asset>)
      modifies this
      ensures r == LoadAsset(data, old(pos)) && (r.Got? ==> pos == r.next)
    {
      hide LoadStr, Pow256;
      var name := ReadStr(4, "asset name length", "asset name");
      if name.Bad? {
        return Bad(name.fault);
      }
      var content := ReadStr(4, "asset data length", "asset data");
      if content.Bad? {
        return Bad(content.fault);
      }
      r := Got(Asset(name.value, content.value), pos);
    }

    /** load_program. */
    method LoadProgram() returns (r: Got<Image>)
      modifies this
      ensures r == Load(data)
    {
      hide LoadConstPart, LoadFuncPart, LoadCodePart, LoadTail, HasBit;
      if |data| < 6 || data[..4] != MAGIC {
        return Bad(BadMagic);
      }
      if data[4] != 2 && data[4] != 3 {
        return Bad(BadVersion);
      }
      var flags := data[5];
      pos := 6;
      var consts := ReadConsts(data[4]);
      if consts.Bad? {
        return Bad(consts.fault);
      }
      var funcs := ReadFuncs(|consts.value|);
      if funcs.Bad? {
        return Bad(funcs.fault);
      }
      var code := ReadCode(|funcs.value|, HasBit(flags, 1));
      if code.Bad? {
        return Bad(code.fault);
      }
      r := LoadRest(flags, Image(data[4], HasBit(flags, 4), consts.value, funcs.value, code.value.0, code.value.1,
                                 None, None, None));
    }

    method LoadRest(flags: nat, m: Image) returns (r: Got<Image>)
      requires pos <= |data|
      modifies this
      ensures r == LoadTail(data, old(pos), flags, m)
    {
      hide LoadDebugPart, LoadAssetPart, LoadStr, HasBit, Pow256;
      var debug := ReadDebug(HasBit(flags, 2));
      if debug.Bad? {
        return Bad(debug.fault);
      }
      var assets := ReadAssets(HasBit(flags, 8));
      if assets.Bad? {
        return Bad(assets.fault);
      }
      var permissions: Option<Bytes> := None;
      if HasBit(flags, 16) {
        var spec := ReadStr(4, "permissions length", "permissions section");
        if spec.Bad? {
          return Bad(spec.fault);
        }
        permissions := Some(spec.value);
      }
      var i := 0;
      while i < |m.funcs|
        invariant i <= |m.funcs| && forall j :: 0 <= j < i ==> m.funcs[j].entry <= |m.code|
      {
        if m.funcs[i].entry > |m.code| {
          return Bad(EntryPastCode);
        }
        i := i + 1;
      }
      r := Got(m.(debug := debug.value, assets := assets.value, permissions := permissions), pos);
    }
  }

  /** Loading a stored image. */
  method StoreAndLoad(m: Image, encoded: bool, signed: bool, trailing: Bytes) returns (r: Got<Image>)
    requires Storable(m)
    ensures r.Got? && r.value == m
  {
    hide Storable, Load, Serialise;
    LoadSerialised(m, encoded, signed, trailing);
    var f := new File(Serialise(m, encoded, signed) + trailing);
    r := f.LoadProgram();
  }
}
