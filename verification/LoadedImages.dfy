/**
 What the loader lets through: only images the format can store. Every index is inside its
 table, every entry point inside the code, and the file is as long as the image's own
 serialisation, whose loading gives the same image. So a file is loaded exactly if it
 could have been written, up to flag bits nobody reads and how a true constant is spelt.
 */
module LoadedImages {
  import opened Common
  import opened Bits
  import opened Cursor
  import opened Container

  lemma ConstLoaded(s: Bytes, p: nat, version: nat)
    requires LoadConst(s, p, version).Got?
    ensures var c := LoadConst(s, p, version);
            ConstFits(c.value, version) && c.next == p + |ConstBytes(c.value, version)|
  {
    hide LeValue, Le;
    EightBytes();
    assert Pow256(1) == 256;
  }

  lemma {:induction false} ConstsLoaded(s: Bytes, p: nat, version: nat, n: nat, acc: seq<Const>)
    requires p <= |s| && LoadConsts(s, p, version, n, acc).Got?
    ensures var r := LoadConsts(s, p, version, n, acc);
            var consts := r.value[|acc|..];
            && r.value[..|acc|] == acc && (forall i :: 0 <= i < |consts| ==> ConstFits(consts[i], version))
            && r.next == p + |ConstsBytes(consts, version)|
    decreases n
  {
    hide LoadConst, ConstBytes, ConstFits;
    if n > 0 {
      ConstLoaded(s, p, version);
      var c := LoadConst(s, p, version);
      ConstsLoaded(s, c.next, version, n - 1, acc + [c.value]);
      var r := LoadConsts(s, p, version, n, acc);
      assert r.value[|acc|..] == [c.value] + r.value[|acc| + 1..];
      assert r.value[..|acc| + 1][..|acc|] == acc;
    } else {
      assert acc[|acc|..] == [];
    }
  }

  lemma ConstPartLoaded(s: Bytes, p: nat, version: nat)
    requires LoadConstPart(s, p, version).Got?
    ensures var r := LoadConstPart(s, p, version);
            && |r.value| < Pow256(2) && (forall i :: 0 <= i < |r.value| ==> ConstFits(r.value[i], version))
            && r.next == p + |ConstPart(r.value, version)|
  {
    hide LoadConsts, ConstFits, LeValue, Pow256;
    var n := Rd(s, p, 2, "constant count");
    ConstsLoaded(s, n.next, version, n.value, []);
    var r := LoadConstPart(s, p, version);
    assert r.value[0..] == r.value;
  }

  lemma {:induction false} FuncsLoaded(s: Bytes, p: nat, nconsts: nat, n: nat, acc: seq<Func>)
    requires p + 9 * n <= |s| && LoadFuncs(s, p, nconsts, n, acc).Got?
    ensures var r := LoadFuncs(s, p, nconsts, n, acc);
            && |r.value| == |acc| + n && r.value[..|acc|] == acc
            && forall i :: |acc| <= i < |r.value| ==> FuncFits(r.value[i], nconsts)
    decreases n
  {
    hide LeValue, Pow256;
    if n > 0 {
      var f := LoadFunc(s, p, nconsts);
      FuncsLoaded(s, f.next, nconsts, n - 1, acc + [f.value]);
      var r := LoadFuncs(s, p, nconsts, n, acc);
      assert r.value[..|acc| + 1][..|acc|] == acc && r.value[..|acc| + 1][|acc|] == f.value;
    }
  }

  lemma FuncPartLoaded(s: Bytes, p: nat, nconsts: nat)
    requires LoadFuncPart(s, p, nconsts).Got?
    ensures var r := LoadFuncPart(s, p, nconsts);
            && |r.value| < Pow256(2) && (forall i :: 0 <= i < |r.value| ==> FuncFits(r.value[i], nconsts))
            && r.next == p + |FuncPart(r.value)|
  {
    hide LoadFuncs, FuncFits, LeValue, Pow256;
    var n := Rd(s, p, 2, "function count");
    FuncsLoaded(s, n.next, nconsts, n.value, []);
  }

  lemma CodePartLoaded(s: Bytes, p: nat, nfuncs: nat, encoded: bool)
    requires LoadCodePart(s, p, nfuncs, encoded).Got?
    ensures var r := LoadCodePart(s, p, nfuncs, encoded);
            && r.value.0 < nfuncs && |r.value.1| < Pow256(4)
            && r.next == p + |CodePart(r.value.0, r.value.1, encoded)|
  {
    hide LeValue, Pow256, Encoded, Decoded;
  }

  lemma {:induction false} DebugLoaded(s: Bytes, p: nat, n: nat, acc: seq<DebugEntry>)
    requires p + 8 * n <= |s|
    ensures var ds := LoadDebug(s, p, n, acc).value;
            && |ds| == |acc| + n && ds[..|acc|] == acc
            && forall i :: |acc| <= i < |ds| ==> ds[i].pc < Pow256(4) && ds[i].line < Pow256(4)
    decreases n
  {
    hide LeValue, Pow256;
    if n > 0 {
      var d := DebugEntry(LeValue(s, p, 4), LeValue(s, p + 4, 4));
      DebugLoaded(s, p + 8, n - 1, acc + [d]);
      var ds := LoadDebug(s, p, n, acc).value;
      assert ds[..|acc| + 1][..|acc|] == acc && ds[..|acc| + 1][|acc|] == d;
    }
  }

  lemma DebugPartLoaded(s: Bytes, p: nat, present: bool)
    requires p <= |s| && LoadDebugPart(s, p, present).Got?
    ensures var r := LoadDebugPart(s, p, present);
            && r.value.Some? == present && (present ==> DebugFits(r.value.value)) && r.next == p + |DebugPart(r.value)|
  {
    hide LoadDebug, LeValue, Pow256;
    if present {
      var n := Rd(s, p, 4, "debug entry count");
      DebugLoaded(s, n.next, n.value, []);
    }
  }

  predicate AssetFits(a: Asset) {
    |a.name| < Pow256(4) && |a.data| < Pow256(4)
  }

  lemma {:induction false} AssetsLoaded(s: Bytes, p: nat, n: nat, acc: seq<Asset>)
    requires p <= |s| && LoadAssets(s, p, n, acc).Got?
    ensures var r := LoadAssets(s, p, n, acc);
            && |r.value| == |acc| + n && r.value[..|acc|] == acc
            && (forall i :: |acc| <= i < |r.value| ==> AssetFits(r.value[i]))
            && r.next == p + |AssetsBytes(r.value[|acc|..])|
    decreases n
  {
    hide Pow256, LeValue, Le;
    if n > 0 {
      var a := LoadAsset(s, p);
      assert a.next == p + |AssetBytes(a.value)| && AssetFits(a.value);
      AssetsLoaded(s, a.next, n - 1, acc + [a.value]);
      var r := LoadAssets(s, p, n, acc);
      assert r.value[..|acc| + 1][..|acc|] == acc && r.value[..|acc| + 1][|acc|] == a.value;
      assert r.value[|acc|..][1..] == r.value[|acc| + 1..];
    } else {
      assert acc[|acc|..] == [];
    }
  }

  lemma AssetPartLoaded(s: Bytes, p: nat, present: bool)
    requires p <= |s| && LoadAssetPart(s, p, present).Got?
    ensures var r := LoadAssetPart(s, p, present);
            && r.value.Some? == present && (present ==> AssetsFit(r.value.value)) && r.next == p + |AssetPart(r.value)|
  {
    hide LoadAssets, LeValue, Pow256, AssetsBytes;
    if present {
      var n := Rd(s, p, 4, "asset count");
      AssetsLoaded(s, n.next, n.value, []);
      var r := LoadAssets(s, n.next, n.value, []);
      assert r.value[0..] == r.value;
      assert forall i :: 0 <= i < |r.value| ==> AssetFits(r.value[i]);
    }
  }

  lemma PermissionPartLoaded(s: Bytes, p: nat, present: bool)
    requires p <= |s| && LoadPermissionPart(s, p, present).Got?
    ensures var r := LoadPermissionPart(s, p, present);
            && r.value.Some? == present && (present ==> |r.value.value| < Pow256(4))
            && r.next == p + |PermissionPart(r.value)|
  {
    hide LeValue, Pow256;
  }

  lemma TailLoaded(s: Bytes, p: nat, flags: nat, m: Image)
    requires p <= |s| && LoadTail(s, p, flags, m).Got?
    ensures var r := LoadTail(s, p, flags, m);
            var full := r.value;
            && m.(debug := full.debug, assets := full.assets, permissions := full.permissions) == full
            && full.debug.Some? == HasBit(flags, 2) && full.assets.Some? == HasBit(flags, 8)
            && full.permissions.Some? == HasBit(flags, 16)
            && (full.debug.Some? ==> DebugFits(full.debug.value))
            && (full.assets.Some? ==> AssetsFit(full.assets.value))
            && (full.permissions.Some? ==> |full.permissions.value| < Pow256(4))
            && (forall i :: 0 <= i < |full.funcs| ==> full.funcs[i].entry <= |full.code|)
            && r.next == p + |DebugPart(full.debug)| + |AssetPart(full.assets)| + |PermissionPart(full.permissions)|
            && r.next <= |s|
  {
    hide LoadDebugPart, LoadAssetPart, LoadPermissionPart, DebugPart, AssetPart, PermissionPart, DebugFits, AssetsFit,
         HasBit, Pow256;
    DebugPartLoaded(s, p, HasBit(flags, 2));
    var p1 := LoadDebugPart(s, p, HasBit(flags, 2)).next;
    AssetPartLoaded(s, p1, HasBit(flags, 8));
    PermissionPartLoaded(s, LoadAssetPart(s, p1, HasBit(flags, 8)).next, HasBit(flags, 16));
  }

  /**
   Only storable images are loaded: every index is in its table, every entry point in the
   code. The loader stops where the image's own serialisation ends, and the flags are its.
   */
  lemma LoadedStorable(s: Bytes)
    requires Load(s).Got?
    ensures |s| >= 6
    ensures var m, encoded := Load(s).value, HasBit(s[5], 1);
            && Storable(m) && Load(s).next == |Serialise(m, encoded, HasBit(s[5], 32))| <= |s|
            && s[..4] == MAGIC && s[4] == m.version && (s[5] < 64 ==> s[5] == Flags(m, encoded, HasBit(s[5], 32)))
  {
    hide LoadConstPart, LoadFuncPart, LoadCodePart, LoadTail, ConstPart, FuncPart, CodePart, DebugPart, AssetPart,
         PermissionPart, DebugFits, AssetsFit, ConstFits, FuncFits, HasBit, Pow256, Flags;
    ConstPartLoaded(s, 6, s[4]);
    var consts := LoadConstPart(s, 6, s[4]);
    FuncPartLoaded(s, consts.next, |consts.value|);
    var funcs := LoadFuncPart(s, consts.next, |consts.value|);
    CodePartLoaded(s, funcs.next, |funcs.value|, HasBit(s[5], 1));
    var code := LoadCodePart(s, funcs.next, |funcs.value|, HasBit(s[5], 1));
    TailLoaded(s, code.next, s[5],
               Image(s[4], HasBit(s[5], 4), consts.value, funcs.value, code.value.0, code.value.1, None, None, None));
    FlagsAre(s[5], Load(s).value);
    FuncsStorable(Load(s).value, |consts.value|);
    HeaderLength(Load(s).value, HasBit(s[5], 1), HasBit(s[5], 32));
  }

  lemma FuncsStorable(m: Image, nconsts: nat)
    requires forall i :: 0 <= i < |m.funcs| ==> FuncFits(m.funcs[i], nconsts) && m.funcs[i].entry <= |m.code|
    ensures nconsts == |m.consts| ==>
              forall i :: 0 <= i < |m.funcs| ==> FuncFits(m.funcs[i], |m.consts|) && m.funcs[i].entry <= |m.code|
  {
  }

  lemma FlagsAre(f: nat, m: Image)
    requires m.debug.Some? == HasBit(f, 2) && m.sandboxed == HasBit(f, 4) && m.assets.Some? == HasBit(f, 8)
    requires m.permissions.Some? == HasBit(f, 16)
    ensures f < 64 ==> f == Flags(m, HasBit(f, 1), HasBit(f, 32))
  {
    SixBits(f);
  }

  lemma SixBits(f: nat)
    ensures f < 64 ==>
              f == f % 2 + 2 * (f / 2 % 2) + 4 * (f / 4 % 2) + 8 * (f / 8 % 2) + 16 * (f / 16 % 2) + 32 * (f / 32 % 2)
  {
    assert f / 4 == f / 2 / 2 && f / 8 == f / 4 / 2 && f / 16 == f / 8 / 2 && f / 32 == f / 16 / 2;
  }

  /** A count for which too few bytes are left is refused as such, before anything is read for it. */
  lemma CountsChecked(s: Bytes, p: nat, nconsts: nat, version: nat)
    requires p + 4 <= |s|
    ensures var n := LeValue(s, p, 2);
            && (n > |s| - p - 2 ==> LoadConstPart(s, p, version) == Bad(Truncated("constant table", n, p + 2)))
            && (9 * n > |s| - p - 2 ==> LoadFuncPart(s, p, nconsts) == Bad(Truncated("function table", 9 * n, p + 2)))
    ensures var n := LeValue(s, p, 4);
            && (8 * n > |s| - p - 4 ==> LoadDebugPart(s, p, true) == Bad(Truncated("debug section", 8 * n, p + 4)))
            && (8 * n > |s| - p - 4 ==> LoadAssetPart(s, p, true) == Bad(Truncated("asset table", 8 * n, p + 4)))
  {
    hide LeValue;
  }

  /** Writing a loaded image again gives a file that loads as the same image and ends at the same place. */
  lemma LoadedAgain(s: Bytes, trailing: Bytes)
    requires Load(s).Got?
    ensures Storable(Load(s).value)
    ensures Load(Serialise(Load(s).value, HasBit(s[5], 1), HasBit(s[5], 32)) + trailing) == Load(s)
  {
    hide Load, Serialise, Storable, HasBit;
    LoadedStorable(s);
    LoadSerialised(Load(s).value, HasBit(s[5], 1), HasBit(s[5], 32), trailing);
  }

  // ---- One image, byte by byte ----

  const SAMPLE := Image(3, true,
    [CStr([109]), CInt(-2), CFloat(0x3FF0_0000_0000_0000), CBool(true)],
    [Func(0, 1, 2, 258)], 0, [0],
    Some([DebugEntry(1, 515)]), Some([Asset([97], [98, 99])]), Some([112]))

  lemma LeStep(a: Byte, n: nat, w: nat)
    ensures Le(a + 256 * n, w + 1) == [a] + Le(n, w)
  {
    assert (a + 256 * n) % 256 == a && (a + 256 * n) / 256 == n;
  }

  lemma LeTwo(a: Byte, b: Byte)
    ensures Le(a + 256 * b, 2) == [a, b]
  {
    LeStep(a, b, 1);
    OneByte(b);
  }

  lemma LeFour(a: Byte, b: Byte, c: Byte, d: Byte)
    ensures Le(a + 256 * (b + 256 * (c + 256 * d)), 4) == [a, b, c, d]
  {
    hide Le;
    LeTwo(c, d);
    LeStep(b, c + 256 * d, 2);
    LeStep(a, b + 256 * (c + 256 * d), 3);
  }

  lemma LeEight(a: Byte, b: Byte, c: Byte, d: Byte, n: nat)
    ensures Le(a + 256 * (b + 256 * (c + 256 * (d + 256 * n))), 8) == [a, b, c, d] + Le(n, 4)
  {
    hide Le;
    LeStep(d, n, 4);
    LeStep(c, d + 256 * n, 5);
    LeStep(b, c + 256 * (d + 256 * n), 6);
    LeStep(a, b + 256 * (c + 256 * (d + 256 * n)), 7);
  }

  lemma SampleConsts()
    ensures ConstBytes(CStr([109]), 3) == [3, 1, 0, 0, 0, 109] && ConstBytes(CStr([109]), 2) == [3, 1, 0, 109]
    ensures ConstBytes(CInt(-2), 3) == [1, 254, 255, 255, 255, 255, 255, 255, 255]
    ensures ConstBytes(CFloat(0x3FF0_0000_0000_0000), 3) == [2, 0, 0, 0, 0, 0, 0, 240, 63]
    ensures ConstBytes(CBool(true), 3) == [4, 1] && ConstBytes(CBool(false), 3) == [4, 0]
  {
    hide Le;
    LeTwo(1, 0);
    LeFour(1, 0, 0, 0);
    LeFour(255, 255, 255, 255);
    LeEight(254, 255, 255, 255, 0xFFFF_FFFF);
    LeFour(0, 0, 240, 63);
    LeEight(0, 0, 0, 0, 0x3FF0_0000);
    SampleFits();
  }

  lemma SampleFits()
    ensures forall i :: 0 <= i < |SAMPLE.consts| ==> ConstFits(SAMPLE.consts[i], 3)
    ensures ConstFits(SAMPLE.consts[0], 2)
    ensures Storable(SAMPLE)
  {
    EightBytes();
  }

  /** The layout, in the order and with the widths, tags and flags of the format. */
  lemma SampleBytes()
    ensures Storable(SAMPLE)
    ensures Serialise(SAMPLE, false, false) ==
              [80, 89, 82, 79, 3, 30]
              + ([4, 0]
                 + ([3, 1, 0, 0, 0, 109]
                    + ([1, 254, 255, 255, 255, 255, 255, 255, 255] + ([2, 0, 0, 0, 0, 0, 0, 240, 63] + [4, 1])))
              + ([1, 0] + [0, 0, 1, 0, 0, 0, 2, 2, 1]
              + ([0, 0, 1, 0, 0, 0, 0]
              + ([1, 0, 0, 0, 1, 0, 0, 0, 3, 2, 0, 0]
              + ([1, 0, 0, 0, 1, 0, 0, 0, 97, 2, 0, 0, 0, 98, 99]
              + [1, 0, 0, 0, 112])))))
  {
    SampleFits();
    SampleTables();
    SampleSections();
    hide ConstPart, FuncPart, CodePart, DebugPart, AssetPart, PermissionPart, Storable;
  }

  lemma SampleTables()
    ensures forall i :: 0 <= i < |SAMPLE.consts| ==> ConstFits(SAMPLE.consts[i], 3)
    ensures ConstPart(SAMPLE.consts, 3) ==
              [4, 0]
              + ([3, 1, 0, 0, 0, 109]
                 + ([1, 254, 255, 255, 255, 255, 255, 255, 255] + ([2, 0, 0, 0, 0, 0, 0, 240, 63] + [4, 1])))
    ensures FuncPart(SAMPLE.funcs) == [1, 0] + [0, 0, 1, 0, 0, 0, 2, 2, 1]
  {
    SampleFits();
    SampleConsts();
    hide Le, ConstBytes, ConstFits;
    LeTwo(4, 0);
    var c := SAMPLE.consts;
    assert c[1..] == [c[1], c[2], c[3]] && c[1..][1..] == [c[2], c[3]] && c[1..][1..][1..] == [c[3]];
    assert ConstsBytes([c[3]], 3) == ConstBytes(c[3], 3) + ConstsBytes([], 3);
    LeTwo(1, 0);
    LeTwo(0, 0);
    LeFour(1, 0, 0, 0);
    OneByte(2);
    LeTwo(2, 1);
    assert FuncsBytes(SAMPLE.funcs) == FuncBytes(SAMPLE.funcs[0]) + FuncsBytes([]);
  }

  lemma SampleSections()
    ensures CodePart(SAMPLE.entryFn, SAMPLE.code, false) == [0, 0, 1, 0, 0, 0, 0]
    ensures DebugPart(SAMPLE.debug) == [1, 0, 0, 0, 1, 0, 0, 0, 3, 2, 0, 0]
    ensures AssetPart(SAMPLE.assets) == [1, 0, 0, 0, 1, 0, 0, 0, 97, 2, 0, 0, 0, 98, 99]
    ensures PermissionPart(SAMPLE.permissions) == [1, 0, 0, 0, 112]
  {
    hide Le;
    LeTwo(0, 0);
    LeFour(1, 0, 0, 0);
    LeFour(2, 0, 0, 0);
    LeFour(3, 2, 0, 0);
    assert DebugBytes([DebugEntry(1, 515)]) == Le(1, 4) + (Le(515, 4) + DebugBytes([]));
    assert AssetsBytes([Asset([97], [98, 99])]) == AssetBytes(Asset([97], [98, 99])) + AssetsBytes([]);
  }
}
