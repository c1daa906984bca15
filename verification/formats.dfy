/** Record formats and naming of the tree generator (gentree/Formats.h):
    decimal ids, the zero-padded snapshot ids used in path names, the path
    builders, the read/write path pair, the record orderings used by the
    external sorts, and the snapshot description each generated tree ends with. */
module Formats {
  import opened Wrappers

  predicate IsDigit(c: char) {
    '0' <= c <= '9'
  }

  predicate AllDigits(s: string) {
    forall k | 0 <= k < |s| :: IsDigit(s[k])
  }

  function DigitChar(d: nat): (c: char)
    requires d < 10
    ensures IsDigit(c)
  {
    "0123456789"[d]
  }

  function DigitValue(c: char): (d: nat)
    requires IsDigit(c)
    ensures d < 10
  {
    (c as int - '0' as int)
  }

  lemma DigitRoundTrip(d: nat)
    requires d < 10
    ensures DigitValue(DigitChar(d)) == d
  {
  }

  /** Decimal text of a natural number, without leading zeros. */
  function NatToString(n: nat): (s: string)
    ensures |s| >= 1 && AllDigits(s)
    ensures n >= 10 <==> |s| >= 2
    ensures n >= 100 <==> |s| >= 3
  {
    if n < 10 then [DigitChar(n)] else NatToString(n / 10) + [DigitChar(n % 10)]
  }

  /** `toString<int>`: decimal text, with a leading minus sign when negative. */
  function IntToString(n: int): string {
    if n < 0 then "-" + NatToString(-n) else NatToString(n)
  }

  /** The value of a string of decimal digits. */
  function ParseNat(s: string): nat
    requires AllDigits(s)
  {
    if s == [] then 0 else ParseNat(s[..|s| - 1]) * 10 + DigitValue(s[|s| - 1])
  }

  /** Decimal text reads back as the number it was made from. */
  lemma {:induction false} ParseNatToString(n: nat)
    ensures ParseNat(NatToString(n)) == n
  {
    if n >= 10 {
      var s := NatToString(n);
      assert s[..|s| - 1] == NatToString(n / 10);
      ParseNatToString(n / 10);
      DigitRoundTrip(n % 10);
    } else {
      DigitRoundTrip(n);
    }
  }

  /** Leading zeros do not change a digit string's value. */
  lemma {:induction false} LeadingZero(s: string)
    requires AllDigits(s)
    ensures AllDigits("0" + s) && ParseNat("0" + s) == ParseNat(s)
  {
    if s != [] {
      var t := "0" + s;
      assert t[..|t| - 1] == "0" + s[..|s| - 1];
      LeadingZero(s[..|s| - 1]);
    } else {
      assert ("0" + s) == "0";
    }
  }

  /** `PathInfo::FormatId`: ids below 10 get two leading zeros, ids below 100
      one, larger ids none. */
  function FormatId(id: int): string {
    if id < 10 then "00" + IntToString(id)
    else if id < 100 then "0" + IntToString(id)
    else IntToString(id)
  }

  /** A non-negative id is formatted as digits whose value is the id: three
      digits below 1000, its plain decimal text from 100 on. */
  lemma FormatIdValue(id: nat)
    ensures AllDigits(FormatId(id)) && ParseNat(FormatId(id)) == id
    ensures id < 1000 ==> |FormatId(id)| == 3
    ensures id >= 100 ==> FormatId(id) == NatToString(id)
  {
    var s := NatToString(id);
    ParseNatToString(id);
    if id < 10 {
      LeadingZero(s);
      LeadingZero("0" + s);
      assert "00" + s == "0" + ("0" + s);
    } else if id < 100 {
      LeadingZero(s);
    }
    if id < 1000 && id >= 100 {
      assert id / 10 >= 10 && id / 10 < 100;
      assert |NatToString(id / 10)| == 2;
    }
  }

  /** Distinct non-negative ids get distinct names. */
  lemma FormatIdInjective(a: nat, b: nat)
    requires FormatId(a) == FormatId(b)
    ensures a == b
  {
    FormatIdValue(a);
    FormatIdValue(b);
  }

  /** A per-snapshot, per-part path: `base + dir + F(id) + mid + F(id) + "." + file`. */
  function SnapPartPath(base: string, dir: string, mid: string, id: int, file: int): string {
    base + dir + FormatId(id) + mid + FormatId(id) + "." + IntToString(file)
  }

  function GetHsml(base: string, id: int, file: int): string {
    SnapPartPath(base, "hsmldir_", "/hsml_", id, file)
  }

  function GetSubTab(base: string, id: int, file: int): string {
    SnapPartPath(base, "groups_", "/subhalo_tab_", id, file)
  }

  function GetSubId(base: string, id: int, file: int): string {
    SnapPartPath(base, "groups_", "/subhalo_ids_", id, file)
  }

  function GetSnap(base: string, name: string, id: int, file: int): string {
    SnapPartPath(base, "snapdir_", "/snap_" + name + "_", id, file)
  }

  function GetTree(base: string, id: int, spacing: int): string {
    base + "treedata/trees_sf" + IntToString(spacing) + "_" + FormatId(id) + ".0"
  }

  /** Length of the run of digits at the start of `s`. */
  function DigitRun(s: string): (n: nat)
    ensures n <= |s| && AllDigits(s[..n])
    ensures n < |s| ==> !IsDigit(s[n])
  {
    if s == [] || !IsDigit(s[0]) then 0
    else
      var n := 1 + DigitRun(s[1..]);
      assert s[..n] == [s[0]] + s[1..][..n - 1];
      n
  }

  lemma {:induction false} DigitRunOf(d: string, rest: string)
    requires AllDigits(d)
    requires rest == [] || !IsDigit(rest[0])
    ensures DigitRun(d + rest) == |d|
  {
    if d != [] {
      assert (d + rest)[1..] == d[1..] + rest;
      DigitRunOf(d[1..], rest);
    }
  }

  /** Splits the digits off the front of `s`: their value and what follows. */
  function TakeNumber(s: string): (r: (nat, string))
  {
    var n := DigitRun(s);
    (ParseNat(s[..n]), s[n..])
  }

  lemma TakeNumberOf(d: string, rest: string)
    requires AllDigits(d)
    requires rest == [] || !IsDigit(rest[0])
    ensures TakeNumber(d + rest) == (ParseNat(d), rest)
  {
    DigitRunOf(d, rest);
    assert (d + rest)[..|d|] == d;
    assert (d + rest)[|d|..] == rest;
  }

  /** Recovers `(id, file)` from what follows the directory prefix of a
      per-snapshot, per-part path: `F(id) + mid + F(id) + "." + file`. */
  function DecodeSnapPartTail(mid: string, t: string): Option<(nat, nat)> {
    var (id, r1) := TakeNumber(t);
    if !(mid <= r1) then None
    else
      var (id2, r2) := TakeNumber(r1[|mid|..]);
      if id2 != id || r2 == [] || r2[0] != '.' || !AllDigits(r2[1..]) then None
      else Some((id, ParseNat(r2[1..])))
  }

  /** Recovers `(id, file)` from a per-snapshot, per-part path, given its
      fixed pieces. */
  function DecodeSnapPartPath(base: string, dir: string, mid: string, s: string): Option<(nat, nat)> {
    var pre := base + dir;
    if !(pre <= s) then None else DecodeSnapPartTail(mid, s[|pre|..])
  }

  lemma {:induction false} DecodeSnapPartTailOf(mid: string, F: string, T: string)
    requires mid != [] && !IsDigit(mid[0])
    requires AllDigits(F) && AllDigits(T)
    ensures DecodeSnapPartTail(mid, F + (mid + (F + ("." + T)))) == Some((ParseNat(F), ParseNat(T)))
  {
    var r1 := mid + (F + ("." + T));
    TakeNumberOf(F, r1);
    assert mid <= r1;
    assert r1[|mid|..] == F + ("." + T);
    TakeNumberOf(F, "." + T);
    assert ("." + T)[1..] == T;
  }

  lemma {:induction false} StripPrefix(pre: string, t: string)
    ensures pre <= pre + t && (pre + t)[|pre|..] == t
  {
    assert (pre + t)[..|pre|] == pre;
  }

  /** Every per-snapshot, per-part path names its id and part number
      unambiguously: they decode back from it. */
  lemma DecodeSnapPartPathRoundTrip(base: string, dir: string, mid: string, id: nat, file: nat)
    requires mid != [] && !IsDigit(mid[0])
    ensures DecodeSnapPartPath(base, dir, mid, SnapPartPath(base, dir, mid, id, file)) == Some((id, file))
  {
    var F := FormatId(id);
    var T := IntToString(file);
    FormatIdValue(id);
    ParseNatToString(file);
    var tail := F + (mid + (F + ("." + T)));
    assert SnapPartPath(base, dir, mid, id, file) == (base + dir) + tail;
    StripPrefix(base + dir, tail);
    DecodeSnapPartTailOf(mid, F, T);
  }

  /** The per-snapshot path builders decode back to their arguments. */
  lemma PathBuildersDecode(base: string, name: string, id: nat, file: nat)
    ensures DecodeSnapPartPath(base, "hsmldir_", "/hsml_", GetHsml(base, id, file)) == Some((id, file))
    ensures DecodeSnapPartPath(base, "groups_", "/subhalo_tab_", GetSubTab(base, id, file)) == Some((id, file))
    ensures DecodeSnapPartPath(base, "groups_", "/subhalo_ids_", GetSubId(base, id, file)) == Some((id, file))
    ensures DecodeSnapPartPath(base, "snapdir_", "/snap_" + name + "_", GetSnap(base, name, id, file)) == Some((id, file))
  {
    DecodeSnapPartPathRoundTrip(base, "hsmldir_", "/hsml_", id, file);
    DecodeSnapPartPathRoundTrip(base, "groups_", "/subhalo_tab_", id, file);
    DecodeSnapPartPathRoundTrip(base, "groups_", "/subhalo_ids_", id, file);
    DecodeSnapPartPathRoundTrip(base, "snapdir_", "/snap_" + name + "_", id, file);
  }

  /** Recovers `(spacing, id)` from what follows the prefix of a tree-data
      path: `spacing + "_" + F(id) + ".0"`. */
  function DecodeTreeTail(t: string): Option<(nat, nat)> {
    var (spacing, r1) := TakeNumber(t);
    if r1 == [] || r1[0] != '_' then None
    else
      var (id, r2) := TakeNumber(r1[1..]);
      if r2 != ".0" then None else Some((id, spacing))
  }

  /** Recovers `(id, spacing)` from a tree-data path. */
  function DecodeTreePath(base: string, s: string): Option<(nat, nat)> {
    var pre := base + "treedata/trees_sf";
    if !(pre <= s) then None else DecodeTreeTail(s[|pre|..])
  }

  lemma {:induction false} DecodeTreeTailOf(T: string, F: string)
    requires AllDigits(F) && AllDigits(T)
    ensures DecodeTreeTail(T + ("_" + (F + ".0"))) == Some((ParseNat(F), ParseNat(T)))
  {
    TakeNumberOf(T, "_" + (F + ".0"));
    assert ("_" + (F + ".0"))[1..] == F + ".0";
    TakeNumberOf(F, ".0");
  }

  /** A tree-data path names its snapshot id and spacing unambiguously. */
  lemma GetTreeDecodes(base: string, id: nat, spacing: nat)
    ensures DecodeTreePath(base, GetTree(base, id, spacing)) == Some((id, spacing))
  {
    var F := FormatId(id);
    var T := IntToString(spacing);
    FormatIdValue(id);
    ParseNatToString(spacing);
    var tail := T + ("_" + (F + ".0"));
    assert GetTree(base, id, spacing) == (base + "treedata/trees_sf") + tail;
    StripPrefix(base + "treedata/trees_sf", tail);
    DecodeTreeTailOf(T, F);
  }

  /** A file location and its alternate (temporary) location. */
  datatype PathPair = PathPair(location: string, temp: string)

  /** `PathPair::swap`: the two locations trade places. */
  function Swap(p: PathPair): (r: PathPair)
    ensures r.location == p.temp && r.temp == p.location
  {
    PathPair(p.temp, p.location)
  }

  lemma SwapTwice(p: PathPair)
    ensures Swap(Swap(p)) == p
  {
  }

  /** A signed 32-bit value. */
  type I32 = x: int | -0x8000_0000 <= x < 0x8000_0000

  /** An unsigned 64-bit value. */
  type U64 = x: int | 0 <= x < 0x1_0000_0000_0000_0000

  /** First-stage record, ordered by particle id. */
  datatype VertexA = VertexA(pid: U64)
  /** Second-stage record, ordered by octree coordinate. */
  datatype VertexB = VertexB(pid: U64, coord: U64)
  /** Group membership record, ordered by particle id. */
  datatype GroupVertex = GroupVertex(pid: U64, subid: I32, fofid: I32)
  /** Group membership record, ordered subhalo-first. */
  datatype GroupVertexB = GroupVertexB(pid: U64, subid: I32, fofid: I32)

  predicate VertexALess(a: VertexA, b: VertexA) { a.pid < b.pid }
  predicate VertexBLess(a: VertexB, b: VertexB) { a.coord < b.coord }
  predicate GroupVertexLess(a: GroupVertex, b: GroupVertex) { a.pid < b.pid }

  /** `GroupVertexB::operator<`: records with a subhalo (subid != -1) come
      first, ordered by subid; the rest follow, ordered by fofid. */
  predicate GroupVertexBLess(a: GroupVertexB, b: GroupVertexB) {
    if a.subid == -1 then
      if b.subid == -1 then a.fofid < b.fofid else false
    else if b.subid == -1 then true
    else a.subid < b.subid
  }

  /** A single integer key whose order is `GroupVertexBLess`: fof-only records
      are shifted above every possible 32-bit subid. */
  function GroupRank(v: GroupVertexB): int {
    if v.subid == -1 then 0x2_0000_0000 + v.fofid else v.subid
  }

  /** The subhalo-first ordering is exactly the order of `GroupRank`, so it is
      a strict weak order (irreflexive, transitive, with transitive
      incomparability), which the sorts and merges rely on. */
  lemma GroupVertexBIsKeyOrder(a: GroupVertexB, b: GroupVertexB)
    ensures GroupVertexBLess(a, b) <==> GroupRank(a) < GroupRank(b)
    ensures !GroupVertexBLess(a, a)
    ensures a.subid == -1 && b.subid != -1 ==> !GroupVertexBLess(a, b) && GroupVertexBLess(b, a)
  {
  }

  /** The description of a generated tree (`BlockFile`): where its root record
      is, the snapshot's time and its box. Doubles are modelled as reals. */
  datatype BlockFile = BlockFile(
    snapnum: I32,
    firstFile: I32,
    firstLocation: U64,
    firstLength: U64,
    time: real,
    pos: seq<real>,
    scale: seq<real>)
}
