/** The motif and its copies: the page draws a path once for the identity
    and once for every operator of the chosen group, and then each of those
    copies once for each of nine translations that carry the unit cell onto
    itself and onto its eight neighbours. */
module Motif {
  import opened Geometry
  import opened PathSyntax
  import opened PathTransform

  /** The drawing area: x and y run from -50 to 50. */
  const MinX: real := -50.0
  const MaxX: real := 50.0
  const MinY: real := -50.0
  const MaxY: real := 50.0

  /** The two lattice translations: the width and the height of the cell. */
  const T1: real := MaxX - MinX
  const T2: real := MaxY - MinY

  /** The nine translations, in the page's order: the identity, then the
      neighbouring cells from the top left round to the left. */
  function Translations(): (ts: seq<Op>)
    ensures |ts| == 9
    ensures forall k :: 0 <= k < |ts| ==> ts[k].Translate? && ValidOp(ts[k])
  {
    [ Translate(0.0, 0.0),
      Translate(-T1, -T2), Translate(0.0, -T2), Translate(T1, -T2),
      Translate(T1, 0.0),
      Translate(T1, T2), Translate(0.0, T2), Translate(-T1, T2),
      Translate(-T1, 0.0) ]
  }

  /** One of -t, 0 and t. */
  predicate Step(v: real, t: real) {
    v == -t || v == 0.0 || v == t
  }

  /** The nine translations are exactly the translations by a vector of the
      3 x 3 block of lattice cells around the cell, and the first of them is
      the identity. */
  lemma TranslationsAreNeighbourhood()
    ensures Translations()[0] == Translate(0.0, 0.0)
    ensures forall p: Point, relative: bool :: Apply(Translations()[0], p, relative) == p
    ensures forall k :: 0 <= k < 9 ==> Step(Translations()[k].dx, T1) && Step(Translations()[k].dy, T2)
    ensures forall dx: real, dy: real :: Step(dx, T1) && Step(dy, T2) ==> Translate(dx, dy) in Translations()
  {
    var ts := Translations();
    forall p: Point, relative: bool ensures Apply(ts[0], p, relative) == p {
      TranslateMeaning(p, 0.0, 0.0);
    }
    forall k | 0 <= k < 9 ensures Step(ts[k].dx, T1) && Step(ts[k].dy, T2) {
      assert k == 0 || k == 1 || k == 2 || k == 3 || k == 4 || k == 5 || k == 6 || k == 7 || k == 8;
    }
    forall dx: real, dy: real | Step(dx, T1) && Step(dy, T2) ensures Translate(dx, dy) in ts {
      if dy == -T2 {
        assert Translate(dx, dy) == ts[1] || Translate(dx, dy) == ts[2] || Translate(dx, dy) == ts[3];
      } else if dy == 0.0 {
        assert Translate(dx, dy) == ts[8] || Translate(dx, dy) == ts[0] || Translate(dx, dy) == ts[4];
      } else {
        assert Translate(dx, dy) == ts[7] || Translate(dx, dy) == ts[6] || Translate(dx, dy) == ts[5];
      }
    }
  }

  /** The position of a translation in the 3 x 3 block, row by row from the
      top left, or -1 for any other operator. */
  function CellIndex(op: Op): int {
    if op.Translate? && Step(op.dx, T1) && Step(op.dy, T2) then
      3 * (if op.dy == -T2 then 0 else if op.dy == 0.0 then 1 else 2)
      + (if op.dx == -T1 then 0 else if op.dx == 0.0 then 1 else 2)
    else -1
  }

  /** No translation occurs twice: the nine sit in nine different cells. */
  lemma TranslationsDistinct()
    ensures forall k, l :: 0 <= k < l < 9 ==> Translations()[k] != Translations()[l]
  {
    var ts := Translations();
    var cells := [4, 0, 1, 2, 5, 8, 7, 6, 3];
    forall k | 0 <= k < 9 ensures CellIndex(ts[k]) == cells[k] {
      assert k == 0 || k == 1 || k == 2 || k == 3 || k == 4 || k == 5 || k == 6 || k == 7 || k == 8;
    }
    forall k, l | 0 <= k < l < 9 ensures ts[k] != ts[l] {
      assert cells[k] != cells[l];
    }
  }

  /** Every path in a list can be transformed. */
  predicate AllWellFormed(paths: seq<string>) {
    forall i :: 0 <= i < |paths| ==> WellFormed(paths[i])
  }

  /** The copies the page translates: the motif itself, then its image under
      each operator of the group. Each copy has the motif's command letters. */
  function Bases(pathD: string, transforms: seq<Transform>, fmt: NumberFormat): (r: seq<string>)
    requires WellFormed(pathD) && PrintsTokens(fmt)
    ensures |r| == |transforms| + 1
    ensures AllWellFormed(r)
    ensures forall i :: 0 <= i < |r| ==> Letters(r[i]) == Letters(pathD)
  {
    BasesWellFormed(pathD, transforms, fmt);
    [pathD] + seq(|transforms|, i requires 0 <= i < |transforms| => ApplyTransform(pathD, transforms[i], fmt))
  }

  /** Helper: a transformed path is well formed again and keeps its letters. */
  lemma CopyKeepsLetters(g: string, f: Transform, fmt: NumberFormat)
    requires WellFormed(g) && PrintsTokens(fmt)
    ensures WellFormed(ApplyTransform(g, f, fmt)) && Letters(ApplyTransform(g, f, fmt)) == Letters(g)
  {
    ApplyTransformCommands(g, f, fmt);
  }

  /** Helper: every transformed copy of the motif is well formed again and
      keeps its letters. */
  lemma BasesWellFormed(pathD: string, transforms: seq<Transform>, fmt: NumberFormat)
    requires WellFormed(pathD) && PrintsTokens(fmt)
    ensures forall i :: 0 <= i < |transforms| ==>
      WellFormed(ApplyTransform(pathD, transforms[i], fmt)) &&
      Letters(ApplyTransform(pathD, transforms[i], fmt)) == Letters(pathD)
  {
    forall i | 0 <= i < |transforms|
      ensures WellFormed(ApplyTransform(pathD, transforms[i], fmt))
      ensures Letters(ApplyTransform(pathD, transforms[i], fmt)) == Letters(pathD)
    {
      CopyKeepsLetters(pathD, transforms[i], fmt);
    }
  }

  /** The nine translated copies of one path, in the order of the
      translations. */
  function Row(g: string, fmt: NumberFormat): seq<string>
    requires WellFormed(g)
  {
    var ts := Translations();
    seq(|ts|, j requires 0 <= j < |ts| => ApplyTransform(g, Image(ts[j]), fmt))
  }

  /** The tiles of the page: the rows of all paths, one after another. */
  function Orbit(bases: seq<string>, fmt: NumberFormat): (r: seq<string>)
    requires AllWellFormed(bases)
    ensures |r| == 9 * |bases|
    decreases |bases|
  {
    if bases == [] then []
    else
      var n := |bases| - 1;
      assert AllWellFormed(bases[..n]);
      Orbit(bases[..n], fmt) + Row(bases[n], fmt)
  }

  /** Tile 9 * i + j is path i under translation j. */
  lemma {:induction false} OrbitAt(bases: seq<string>, fmt: NumberFormat, i: nat, j: nat)
    requires AllWellFormed(bases) && i < |bases| && j < 9
    ensures 9 * i + j < |Orbit(bases, fmt)|
    ensures Orbit(bases, fmt)[9 * i + j] == ApplyTransform(bases[i], Image(Translations()[j]), fmt)
    decreases |bases|
  {
    var n := |bases| - 1;
    assert AllWellFormed(bases[..n]);
    var front, row := Orbit(bases[..n], fmt), Row(bases[n], fmt);
    assert Orbit(bases, fmt) == front + row;
    if i < n {
      OrbitAt(bases[..n], fmt, i, j);
      assert bases[..n][i] == bases[i];
      assert Orbit(bases, fmt)[9 * i + j] == front[9 * i + j];
      assert front[9 * i + j] == ApplyTransform(bases[i], Image(Translations()[j]), fmt);
    } else {
      assert 9 * i + j == |front| + j;
      assert Orbit(bases, fmt)[9 * i + j] == row[j];
      assert i == n;
      assert row[j] == ApplyTransform(bases[i], Image(Translations()[j]), fmt);
    }
  }

  /** The component's loop: for each copy of the motif, push its nine
      translated copies onto the tile list. */
  method BuildOrbit(pathD: string, transforms: seq<Transform>, fmt: NumberFormat) returns (tor: seq<string>)
    requires WellFormed(pathD) && PrintsTokens(fmt)
    ensures tor == Orbit(Bases(pathD, transforms, fmt), fmt)
    ensures |tor| == 9 * (|transforms| + 1)
  {
    var bases := Bases(pathD, transforms, fmt);
    tor := [];
    var i := 0;
    while i < |bases|
      invariant 0 <= i <= |bases|
      invariant AllWellFormed(bases[..i])
      invariant tor == Orbit(bases[..i], fmt)
    {
      OrbitSnoc(bases, i, fmt);
      tor := PushRow(tor, bases[i], fmt);
      i := i + 1;
    }
    Whole(bases);
  }

  /** The inner loop: for each of the nine translations, push the translated
      copy of g onto the tile list. */
  method PushRow(tor0: seq<string>, g: string, fmt: NumberFormat) returns (tor: seq<string>)
    requires WellFormed(g)
    ensures tor == tor0 + Row(g, fmt)
  {
    var ts := Translations();
    ghost var row := Row(g, fmt);
    tor := tor0;
    var j := 0;
    while j < |ts|
      invariant 0 <= j <= |ts|
      invariant tor == tor0 + row[..j]
    {
      RowAt(g, fmt, j);
      tor := tor + [ApplyTransform(g, Image(ts[j]), fmt)];
      Extend(tor0, row, j);
      j := j + 1;
    }
    Whole(row);
  }

  /** Helper: element j of a row. */
  lemma RowAt(g: string, fmt: NumberFormat, j: nat)
    requires WellFormed(g) && j < 9
    ensures |Row(g, fmt)| == 9
    ensures Row(g, fmt)[j] == ApplyTransform(g, Image(Translations()[j]), fmt)
  {
  }

  /** Helper: a prefix grows by the next element. */
  lemma Extend<T>(front: seq<T>, row: seq<T>, j: nat)
    requires j < |row|
    ensures front + row[..j] + [row[j]] == front + row[..j + 1]
  {
    assert row[..j + 1] == row[..j] + [row[j]];
  }

  /** Helper: the whole prefix is the sequence. */
  lemma Whole<T>(s: seq<T>)
    ensures s[..|s|] == s
  {
  }

  /** Helper: the orbit of one more path is the orbit so far and that path's
      row. */
  lemma OrbitSnoc(bases: seq<string>, i: nat, fmt: NumberFormat)
    requires AllWellFormed(bases) && i < |bases|
    ensures AllWellFormed(bases[..i]) && AllWellFormed(bases[..i + 1])
    ensures Orbit(bases[..i + 1], fmt) == Orbit(bases[..i], fmt) + Row(bases[i], fmt)
  {
    assert bases[..i + 1][..i] == bases[..i];
    assert AllWellFormed(bases[..i]);
    assert AllWellFormed(bases[..i + 1]);
  }

  /** Helper: a tile number splits into a path number and a translation
      number. */
  lemma TileIndex(k: nat, n: nat) returns (i: nat, j: nat)
    requires k < 9 * n
    ensures i < n && j < 9 && k == 9 * i + j
  {
    i := k / 9;
    j := k % 9;
  }

  /** Every tile on the page is well formed and has the motif's command
      letters in the motif's order. */
  lemma TilesKeepLetters(pathD: string, transforms: seq<Transform>, fmt: NumberFormat)
    requires WellFormed(pathD) && PrintsTokens(fmt)
    ensures var tor := Orbit(Bases(pathD, transforms, fmt), fmt);
      forall k :: 0 <= k < |tor| ==> WellFormed(tor[k]) && Letters(tor[k]) == Letters(pathD)
  {
    var bases := Bases(pathD, transforms, fmt);
    var tor := Orbit(bases, fmt);
    forall k | 0 <= k < |tor| ensures WellFormed(tor[k]) && Letters(tor[k]) == Letters(pathD) {
      var i, j := TileIndex(k, |bases|);
      OrbitAt(bases, fmt, i, j);
      assert tor[9 * i + j] == ApplyTransform(bases[i], Image(Translations()[j]), fmt);
      assert k == 9 * i + j;
      assert tor[k] == tor[9 * i + j];
      CopyKeepsLetters(bases[i], Image(Translations()[j]), fmt);
      assert Letters(bases[i]) == Letters(pathD);
    }
  }

  /** The first tile is the motif itself, printed again: the same commands,
      each with the motif's operands (as many as the command takes), printed
      and read back once. */
  lemma FirstTileIsMotif(pathD: string, transforms: seq<Transform>, fmt: NumberFormat)
    requires WellFormed(pathD) && PrintsTokens(fmt)
    ensures var tor := Orbit(Bases(pathD, transforms, fmt), fmt);
      var ins := SplitCommands(pathD); var outs := SplitCommands(tor[0]);
      WellFormed(tor[0]) && Letters(tor[0]) == Letters(pathD) && |outs| == |ins| &&
      forall i :: 0 <= i < |ins| ==>
        Operands(outs[i], fmt) == Reread(Operands(ins[i], fmt)[..Arity(ins[i][0])], fmt)
  {
    var bases := Bases(pathD, transforms, fmt);
    var tor := Orbit(bases, fmt);
    var id := Image(Translations()[0]);
    OrbitAt(bases, fmt, 0, 0);
    assert tor[0] == ApplyTransform(pathD, id, fmt);
    ApplyTransformCommands(pathD, id, fmt);
    var ins := SplitCommands(pathD);
    forall i | 0 <= i < |ins|
      ensures TransformArgs(ins[i][0], Operands(ins[i], fmt), id) == Operands(ins[i], fmt)[..Arity(ins[i][0])]
    {
      ZeroTranslationKeepsArgs(ins[i][0], Operands(ins[i], fmt));
    }
  }
}
