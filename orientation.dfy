/**
 * Step 5 of decodeSigil: the search over the three rotations for one under
 * which the corner cells 0, 9 and 15 pass the anchor test, and the remapping
 * of the bits into the canonical frame.
 */
module Orientation {
  import opened Layout
  import opened Rotation

  datatype Option<T> = None | Some(value: T)

  /** A bit vector: one value per cell, 1 for dark and 0 for light. */
  predicate IsBits(bits: seq<int>)
  {
    |bits| == CellCount && forall i :: 0 <= i < CellCount ==> bits[i] == 0 || bits[i] == 1
  }

  /** A table of 16 cell indices, as every rotation map is. */
  predicate IsCellTable(m: seq<int>)
  {
    |m| == CellCount && forall i :: 0 <= i < CellCount ==> 0 <= m[i] < CellCount
  }

  /** The rotation maps are present under the keys 0, 1 and 2. */
  predicate ValidMaps(maps: map<int, seq<int>>)
  {
    forall rot :: 0 <= rot < 3 ==> rot in maps && IsCellTable(maps[rot])
  }

  /** A table of 16 cell indices that names every cell exactly once. */
  predicate IsPermutation(m: seq<int>)
  {
    && |m| == CellCount
    && (forall i :: 0 <= i < CellCount ==> 0 <= m[i] < CellCount)
    && (forall i, j :: 0 <= i < j < CellCount ==> m[i] != m[j])
  }

  /** Turning by 240 degrees undoes the turn by 120 degrees, cell by cell. */
  lemma Map240UndoesMap120(k: int)
    requires 0 <= k < CellCount
    ensures 0 <= Map120()[k] < CellCount && Map240()[Map120()[k]] == k
  {
    SmallIndex(k);
  }

  /** Turning by 120 degrees undoes the turn by 240 degrees, cell by cell. */
  lemma Map120UndoesMap240(k: int)
    requires 0 <= k < CellCount
    ensures 0 <= Map240()[k] < CellCount && Map120()[Map240()[k]] == k
  {
    SmallIndex(k);
  }

  /** The turn maps are permutations of the 16 cells, since each has an inverse. */
  lemma TurnMapsArePermutations()
    ensures IsPermutation(IdentityMap())
    ensures IsPermutation(Map120())
    ensures IsPermutation(Map240())
  {
    forall i | 0 <= i < CellCount ensures 0 <= Map120()[i] < CellCount && 0 <= Map240()[i] < CellCount {
      Map240UndoesMap120(i);
      Map120UndoesMap240(i);
    }
    forall i, j | 0 <= i < j < CellCount ensures Map120()[i] != Map120()[j] && Map240()[i] != Map240()[j] {
      Map240UndoesMap120(i);
      Map240UndoesMap120(j);
      Map120UndoesMap240(i);
      Map120UndoesMap240(j);
    }
  }

  /** The three corner cells 0, 9 and 15 are sent round among themselves. */
  lemma TurnMapsCycleCorners()
    ensures Map120()[0] == 15 && Map120()[9] == 0 && Map120()[15] == 9
    ensures Map240()[0] == 9 && Map240()[9] == 15 && Map240()[15] == 0
  {
  }

  /** The maps the reader builds on the canonical layout, under the keys 0, 1 and 2. */
  function StandardMaps(): (maps: map<int, seq<int>>)
    ensures ValidMaps(maps)
  {
    TurnMapsArePermutations();
    map[0 := IdentityMap(), 1 := Map120(), 2 := Map240()]
  }

  /** The bit of canonical cell k under map m: bits[m[k]]. */
  function Remap(bits: seq<int>, m: seq<int>): (r: seq<int>)
    requires IsBits(bits) && IsCellTable(m)
    ensures IsBits(r)
  {
    seq(CellCount, k requires 0 <= k < CellCount => bits[m[k]])
  }

  /** Reading through the 240-degree map undoes reading through the 120-degree map, and the other way round. */
  lemma RemapUndo(bits: seq<int>)
    requires IsBits(bits)
    ensures IsCellTable(Map120()) && IsCellTable(Map240())
    ensures Remap(Remap(bits, Map120()), Map240()) == bits
    ensures Remap(Remap(bits, Map240()), Map120()) == bits
  {
    TurnMapsArePermutations();
    forall k | 0 <= k < CellCount
      ensures Remap(Remap(bits, Map120()), Map240())[k] == bits[k]
      ensures Remap(Remap(bits, Map240()), Map120())[k] == bits[k]
    {
      Map240UndoesMap120(k);
      Map120UndoesMap240(k);
    }
  }

  /** Reading through the identity map changes nothing. */
  lemma RemapIdentity(bits: seq<int>)
    requires IsBits(bits)
    ensures IsCellTable(IdentityMap()) && Remap(bits, IdentityMap()) == bits
  {
  }

  /** The test a rotation must pass: the code's sum test, or the sigil's own layout (cells 0 and 9 dark, cell 15 light). */
  datatype AnchorRule = SumIsTwo | DarkDarkLight

  /** The sum of the bits that land on the corner cells 0, 9 and 15 under map m. */
  function AnchorSum(bits: seq<int>, m: seq<int>): (n: int)
    requires IsBits(bits) && IsCellTable(m)
    ensures 0 <= n <= 3
  {
    bits[m[0]] + bits[m[9]] + bits[m[15]]
  }

  predicate Accepts(rule: AnchorRule, bits: seq<int>, m: seq<int>)
    requires IsBits(bits) && IsCellTable(m)
  {
    match rule
    case SumIsTwo => AnchorSum(bits, m) == 2
    case DarkDarkLight => bits[m[0]] == 1 && bits[m[9]] == 1 && bits[m[15]] == 0
  }

  /** What decodeSigil returns: the remapped bits, the bits as read, and the rotation key. */
  datatype Decoded = Decoded(bits: seq<int>, raw: seq<int>, rotation: int)

  /**
   * Trying the rotations rot, rot + 1, ..., 2 in turn: the first one the rule
   * accepts, with the bits remapped through its map; None when none does.
   */
  function SearchFrom(rule: AnchorRule, bits: seq<int>, maps: map<int, seq<int>>, rot: int): (r: Option<Decoded>)
    requires IsBits(bits) && ValidMaps(maps) && 0 <= rot <= 3
    decreases 3 - rot
    ensures r.Some? <==> exists q :: rot <= q < 3 && Accepts(rule, bits, maps[q])
    ensures r.Some? ==>
      && rot <= r.value.rotation < 3
      && Accepts(rule, bits, maps[r.value.rotation])
      && (forall q :: rot <= q < r.value.rotation ==> !Accepts(rule, bits, maps[q]))
      && r.value.bits == Remap(bits, maps[r.value.rotation])
      && r.value.raw == bits
  {
    if rot == 3 then None
    else if Accepts(rule, bits, maps[rot]) then Some(Decoded(Remap(bits, maps[rot]), bits, rot))
    else SearchFrom(rule, bits, maps, rot + 1)
  }

  /** The orientation search of decodeSigil: rotations 0, 1, 2 in order, first match wins. */
  method FindOrientation(bits: seq<int>, maps: map<int, seq<int>>) returns (res: Option<Decoded>)
    requires IsBits(bits) && ValidMaps(maps)
    ensures res == SearchFrom(SumIsTwo, bits, maps, 0)
  {
    var validRotation := -1;
    var finalBits: seq<int> := [];
    var rot := 0;
    while rot < 3
      invariant 0 <= rot <= 3
      invariant validRotation == -1
      invariant SearchFrom(SumIsTwo, bits, maps, 0) == SearchFrom(SumIsTwo, bits, maps, rot)
      decreases 3 - rot
    {
      var m := maps[rot];
      var anchorsSum := bits[m[0]] + bits[m[9]] + bits[m[15]];
      if anchorsSum == 2 {
        validRotation := rot;
        finalBits := [];
        for k := 0 to CellCount
          invariant |finalBits| == k
          invariant forall k' :: 0 <= k' < k ==> finalBits[k'] == bits[m[k']]
        {
          finalBits := finalBits + [bits[m[k]]];
        }
        assert finalBits == Remap(bits, m);
        break;
      }
      rot := rot + 1;
    }
    if validRotation != -1 {
      res := Some(Decoded(finalBits, bits, validRotation));
    } else {
      res := None;
    }
  }

  /** Under every standard map the corner cells carry the same three bits, so the sum test gives the same answer. */
  lemma AnchorSumTurnInvariant(bits: seq<int>)
    requires IsBits(bits)
    ensures ValidMaps(StandardMaps())
    ensures AnchorSum(bits, Map120()) == AnchorSum(bits, IdentityMap())
    ensures AnchorSum(bits, Map240()) == AnchorSum(bits, IdentityMap())
  {
    TurnMapsCycleCorners();
  }

  /** The map that undoes standard map rot: the identity for rot 0, and the other turn for rot 1 and 2. */
  function InverseMap(rot: int): seq<int>
    requires 0 <= rot < 3
  {
    if rot == 0 then IdentityMap() else if rot == 1 then Map240() else Map120()
  }

  /** InverseMap(rot) undoes standard map rot, cell by cell. */
  lemma InverseMapUndoes(rot: int)
    requires 0 <= rot < 3
    ensures ValidMaps(StandardMaps()) && IsCellTable(InverseMap(rot))
    ensures forall k :: 0 <= k < CellCount ==> InverseMap(rot)[StandardMaps()[rot][k]] == k
  {
    TurnMapsArePermutations();
    forall k | 0 <= k < CellCount ensures InverseMap(rot)[StandardMaps()[rot][k]] == k {
      Map240UndoesMap120(k);
      Map120UndoesMap240(k);
    }
  }

  /** Bits read through the inverse of m, then looked up through m, are the bits themselves. */
  lemma ReadBack(p: seq<int>, m: seq<int>, inv: seq<int>)
    requires IsBits(p) && IsCellTable(m) && IsCellTable(inv)
    requires forall k :: 0 <= k < CellCount ==> inv[m[k]] == k
    ensures forall i :: 0 <= i < CellCount ==> Remap(p, inv)[m[i]] == p[i]
  {
    forall i | 0 <= i < CellCount ensures Remap(p, inv)[m[i]] == p[i] {
      assert inv[m[i]] == i;
    }
  }

  /** The bits read from a sigil whose canonical bits are p, captured turned by rotation rot: canonical cell i is seen at m[i]. */
  function Captured(p: seq<int>, rot: int): (s: seq<int>)
    requires IsBits(p) && 0 <= rot < 3
    ensures IsBits(s)
    ensures forall i :: 0 <= i < CellCount ==> 0 <= StandardMaps()[rot][i] < CellCount && s[StandardMaps()[rot][i]] == p[i]
  {
    InverseMapUndoes(rot);
    ReadBack(p, StandardMaps()[rot], InverseMap(rot));
    Remap(p, InverseMap(rot))
  }

  /** A sigil's canonical bits: cells 0 and 9 dark, cell 15 light. */
  predicate IsSigil(p: seq<int>)
  {
    IsBits(p) && p[0] == 1 && p[9] == 1 && p[15] == 0
  }

  /**
   * As written, the search never reports a turn: whatever the bits, a result
   * is rotation 0 and its bits are the bits as read.
   */
  lemma AsWrittenNeverTurns(bits: seq<int>)
    requires IsBits(bits)
    ensures SearchFrom(SumIsTwo, bits, StandardMaps(), 0).Some? ==>
      SearchFrom(SumIsTwo, bits, StandardMaps(), 0) == Some(Decoded(bits, bits, 0))
  {
    AnchorSumTurnInvariant(bits);
    RemapIdentity(bits);
  }

  /**
   * As written, a sigil captured turned by 120 or 240 degrees decodes as
   * rotation 0, with bits that are not the sigil's.
   */
  lemma AsWrittenMisreadsTurnedSigil(p: seq<int>, rot: int)
    requires IsSigil(p) && (rot == 1 || rot == 2)
    ensures SearchFrom(SumIsTwo, Captured(p, rot), StandardMaps(), 0) == Some(Decoded(Captured(p, rot), Captured(p, rot), 0))
    ensures Captured(p, rot) != p
  {
    var s := Captured(p, rot);
    TurnMapsCycleCorners();
    RemapIdentity(s);
    assert Accepts(SumIsTwo, s, StandardMaps()[0]);
    if rot == 1 {
      assert s[Map120()[15]] == p[15];
      assert s[9] != p[9];
    } else {
      assert s[Map240()[15]] == p[15];
      assert s[0] != p[0];
    }
  }

  /**
   * With the sigil's own rule (cells 0 and 9 dark, cell 15 light) the search
   * recovers both the turn and the canonical bits of every sigil captured in
   * any of the three rotations.
   */
  lemma CorrectedRecoversTurn(p: seq<int>, rot: int)
    requires IsSigil(p) && 0 <= rot < 3
    ensures SearchFrom(DarkDarkLight, Captured(p, rot), StandardMaps(), 0) == Some(Decoded(p, Captured(p, rot), rot))
  {
    var s := Captured(p, rot);
    var maps := StandardMaps();
    TurnMapsCycleCorners();
    assert Remap(s, maps[rot]) == p by {
      forall k | 0 <= k < CellCount ensures Remap(s, maps[rot])[k] == p[k] {
      }
    }
    assert Accepts(DarkDarkLight, s, maps[rot]);
    if rot == 1 {
      assert s[Map120()[15]] == p[15];
    } else if rot == 2 {
      assert s[Map240()[15]] == p[15] && s[Map120()[9]] == s[0];
    }
    FirstAccepted(DarkDarkLight, s, maps, rot);
  }

  /** The search returns the first rotation the rule accepts. */
  lemma FirstAccepted(rule: AnchorRule, bits: seq<int>, maps: map<int, seq<int>>, rot: int)
    requires IsBits(bits) && ValidMaps(maps) && 0 <= rot < 3
    requires Accepts(rule, bits, maps[rot])
    requires forall q :: 0 <= q < rot ==> !Accepts(rule, bits, maps[q])
    ensures SearchFrom(rule, bits, maps, 0) == Some(Decoded(Remap(bits, maps[rot]), bits, rot))
  {
    var r := SearchFrom(rule, bits, maps, 0);
    assert r.Some?;
  }
}
