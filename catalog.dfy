/** The page's table of wallpaper groups: for each group name, the operators
    whose images of the motif the page draws (the identity is always drawn
    and is not listed), and the group the page shows. */
module Catalog {
  import opened Geometry
  import opened PathSyntax
  import opened PathTransform
  import opened Motif

  /** The half-turns about the centre, the corners and the edge midpoints of
      the cell, row by row from the top left. */
  function HalfTurns(): seq<Op> {
    [ HalfTurn(-T1 / 2.0, -T2 / 2.0), HalfTurn(0.0, -T2 / 2.0), HalfTurn(T1 / 2.0, -T2 / 2.0),
      HalfTurn(-T1 / 2.0, 0.0), HalfTurn(0.0, 0.0), HalfTurn(T1 / 2.0, 0.0),
      HalfTurn(-T1 / 2.0, T2 / 2.0), HalfTurn(0.0, T2 / 2.0), HalfTurn(T1 / 2.0, T2 / 2.0) ]
  }

  /** Reflections in the horizontal lines y = T2/2, y = 0 and y = -T2/2
      (the line 0*x + 1*y + c = 0 is y = -c). */
  function HorizontalMirrors(): seq<Op> {
    [ Reflect(0.0, 1.0, -T2 / 2.0), Reflect(0.0, 1.0, 0.0), Reflect(0.0, 1.0, T2 / 2.0) ]
  }

  /** Reflections in the vertical lines x = T1/2, x = 0 and x = -T1/2. */
  function VerticalMirrors(): seq<Op> {
    [ Reflect(1.0, 0.0, -T1 / 2.0), Reflect(1.0, 0.0, 0.0), Reflect(1.0, 0.0, T1 / 2.0) ]
  }

  /** The offset every glide of the table uses: (MaxX - T1, MaxY - T2), that
      is (MinX, MinY) = (-50, -50), half a cell up and to the left in the
      page's convention, where y grows downward. */
  function GlideShift(): Op {
    Translate(MaxX - T1, MaxY - T2)
  }

  function Glides(): seq<Op> {
    [ Glide(Reflect(0.0, 1.0, -T2 / 2.0), GlideShift()),
      Glide(Reflect(0.0, 1.0, 0.0), GlideShift()),
      Glide(Reflect(0.0, 1.0, T2 / 2.0), GlideShift()) ]
  }

  function CentredOps(): seq<Op> {
    [ Glide(Reflect(0.0, 1.0, T2 / 4.0), GlideShift()),
      Reflect(0.0, 1.0, 0.0),
      Translate(MaxX - T1, 0.0),
      Glide(Reflect(0.0, 1.0, -T2 / 4.0), GlideShift()) ]
  }

  /** The table, keyed by the groups' crystallographic names. */
  function Groups(): map<string, seq<Op>> {
    map[
      "p1" := [],
      "p2" := HalfTurns(),
      "pm" := HorizontalMirrors(),
      "pg" := Glides(),
      "cm" := CentredOps(),
      "pmm" := HalfTurns() + HorizontalMirrors() + VerticalMirrors(),
      "pmg" := HalfTurns() + [Reflect(0.0, 1.0, T2 / 4.0)]
    ]
  }

  /** The group the page shows. */
  const Shown: string := "pmg"

  /** The table has the seven groups with their numbers of operators, the
      shown group among them; pmm and pmg start with the half-turns of p2, and
      pmm goes on with the mirrors of pm. */
  lemma GroupsShape()
    ensures Groups().Keys == {"p1", "p2", "pm", "pg", "cm", "pmm", "pmg"}
    ensures Shown in Groups()
    ensures |Groups()["p1"]| == 0 && |Groups()["p2"]| == 9 && |Groups()["pm"]| == 3
    ensures |Groups()["pg"]| == 3 && |Groups()["cm"]| == 4
    ensures |Groups()["pmm"]| == 15 && |Groups()["pmg"]| == 10
    ensures Groups()["pmm"][..9] == Groups()["p2"] == Groups()["pmg"][..9]
    ensures Groups()["pmm"][9..12] == Groups()["pm"]
  {
    var pmm := HalfTurns() + HorizontalMirrors() + VerticalMirrors();
    assert pmm[..9] == HalfTurns();
    assert pmm[9..12] == HorizontalMirrors();
    assert (HalfTurns() + [Reflect(0.0, 1.0, T2 / 4.0)])[..9] == HalfTurns();
  }

  /** Every operator of the table can be applied, and each of its rotations
      is a true rotation. */
  lemma AllOpsValid()
    ensures forall name, i :: name in Groups() && 0 <= i < |Groups()[name]| ==>
      ValidOp(Groups()[name][i]) && UnitRotations(Groups()[name][i])
  {
    var g := Groups();
    forall name, i | name in g && 0 <= i < |g[name]|
      ensures ValidOp(g[name][i]) && UnitRotations(g[name][i])
    {
      var ops := g[name];
      assert ops == [] || ops == HalfTurns() || ops == HorizontalMirrors() || ops == Glides()
          || ops == CentredOps() || ops == HalfTurns() + HorizontalMirrors() + VerticalMirrors()
          || ops == HalfTurns() + [Reflect(0.0, 1.0, T2 / 4.0)];
    }
  }

  /** Every operator of the table keeps the distance between two points of
      the same kind. */
  lemma CatalogIsometries(name: string, i: nat, p: Point, q: Point, relative: bool)
    requires name in Groups() && i < |Groups()[name]|
    ensures ValidOp(Groups()[name][i])
    ensures Dist2(Apply(Groups()[name][i], p, relative), Apply(Groups()[name][i], q, relative)) == Dist2(p, q)
  {
    AllOpsValid();
    Isometry(Groups()[name][i], p, q, relative);
  }

  /** A whole number of cells of size t, at most two either way. */
  predicate WithinTwoCells(v: real, t: real) {
    v == -2.0 * t || v == -t || v == 0.0 || v == t || v == 2.0 * t
  }

  /** Helper: twice the step between two points of the half-cell grid is a
      whole number of cells. */
  lemma DoubledStep(u: real, w: real, t: real)
    requires Step(2.0 * u, t) && Step(2.0 * w, t)
    ensures WithinTwoCells(2.0 * (w - u), t)
  {
  }

  /** Every half-turn is about a point of the half-cell grid: a corner, an
      edge midpoint or the centre of the cell. */
  lemma HalfTurnCentre(i: nat)
    requires i < 9
    ensures HalfTurns()[i] == HalfTurn(HalfTurns()[i].h, HalfTurns()[i].k)
    ensures Step(2.0 * HalfTurns()[i].h, T1) && Step(2.0 * HalfTurns()[i].k, T2)
  {
    assert i == 0 || i == 1 || i == 2 || i == 3 || i == 4 || i == 5 || i == 6 || i == 7 || i == 8;
  }

  /** Half-turn i followed by half-turn j is the translation by twice the
      step between their centres, a whole lattice vector of at most two cells
      each way: the half-turns of p2 generate only lattice translations. */
  lemma HalfTurnsComposeToLattice(i: nat, j: nat, p: Point)
    requires i < 9 && j < 9
    ensures var hi, hj := HalfTurns()[i], HalfTurns()[j];
      Apply(hj, Apply(hi, p, false), false) == Add(p, Point(2.0 * (hj.h - hi.h), 2.0 * (hj.k - hi.k)))
      && WithinTwoCells(2.0 * (hj.h - hi.h), T1) && WithinTwoCells(2.0 * (hj.k - hi.k), T2)
  {
    var hi, hj := HalfTurns()[i], HalfTurns()[j];
    HalfTurnCentre(i);
    HalfTurnCentre(j);
    HalfTurnsCompose(p, hi.h, hi.k, hj.h, hj.k);
    DoubledStep(hi.h, hj.h, T1);
    DoubledStep(hi.k, hj.k, T2);
  }

  /** Every mirror of pm and pmm is a horizontal or vertical line of the
      half-cell grid. */
  lemma MirrorAt(i: nat)
    requires i < 3
    ensures HorizontalMirrors()[i] == Reflect(0.0, 1.0, HorizontalMirrors()[i].c)
    ensures VerticalMirrors()[i] == Reflect(1.0, 0.0, VerticalMirrors()[i].c)
    ensures Step(2.0 * HorizontalMirrors()[i].c, T2) && Step(2.0 * VerticalMirrors()[i].c, T1)
  {
    assert i == 0 || i == 1 || i == 2;
  }

  /** Helper: reflections in the horizontal lines y = -c1 and then y = -c2
      make the translation by 2 * (c1 - c2) down. */
  lemma HorizontalPair(p: Point, c1: real, c2: real)
    ensures ReflectPoint(ReflectPoint(p, false, 0.0, 1.0, c1), false, 0.0, 1.0, c2)
         == Add(p, Point(0.0, 2.0 * (c1 - c2)))
  {
    NormSqValue(0.0, 1.0);
    ParallelMirrors(p, 0.0, 1.0, c1, c2);
  }

  /** Helper: reflections in the vertical lines x = -c1 and then x = -c2 make
      the translation by 2 * (c1 - c2) across. */
  lemma VerticalPair(p: Point, c1: real, c2: real)
    ensures ReflectPoint(ReflectPoint(p, false, 1.0, 0.0, c1), false, 1.0, 0.0, c2)
         == Add(p, Point(2.0 * (c1 - c2), 0.0))
  {
    NormSqValue(1.0, 0.0);
    ParallelMirrors(p, 1.0, 0.0, c1, c2);
  }

  /** Mirror i of pm followed by mirror j is a vertical lattice translation
      of at most two cells. */
  lemma HorizontalMirrorsCompose(i: nat, j: nat, p: Point)
    requires i < 3 && j < 3
    ensures var mi, mj := HorizontalMirrors()[i], HorizontalMirrors()[j];
      Apply(mj, Apply(mi, p, false), false) == Add(p, Point(0.0, 2.0 * (mi.c - mj.c)))
      && WithinTwoCells(2.0 * (mi.c - mj.c), T2)
  {
    var mi, mj := HorizontalMirrors()[i], HorizontalMirrors()[j];
    MirrorAt(i);
    MirrorAt(j);
    HorizontalPair(p, mi.c, mj.c);
    DoubledStep(mj.c, mi.c, T2);
  }

  /** The vertical mirrors of pmm likewise compose to horizontal lattice
      translations. */
  lemma VerticalMirrorsCompose(i: nat, j: nat, p: Point)
    requires i < 3 && j < 3
    ensures var mi, mj := VerticalMirrors()[i], VerticalMirrors()[j];
      Apply(mj, Apply(mi, p, false), false) == Add(p, Point(2.0 * (mi.c - mj.c), 0.0))
      && WithinTwoCells(2.0 * (mi.c - mj.c), T1)
  {
    var mi, mj := VerticalMirrors()[i], VerticalMirrors()[j];
    MirrorAt(i);
    MirrorAt(j);
    VerticalPair(p, mi.c, mj.c);
    DoubledStep(mj.c, mi.c, T1);
  }

  /** Helper: the glide offset, mirrored in a horizontal line, points the
      other way vertically. */
  lemma MirroredShift(c: real)
    ensures ReflectPoint(Point(MaxX - T1, MaxY - T2), true, 0.0, 1.0, c) == Point(MaxX - T1, T2 - MaxY)
  {
    ReflectRelativeThroughOrigin(Point(MaxX - T1, MaxY - T2), 0.0, 1.0, c);
    ReflectValue(Point(MaxX - T1, MaxY - T2), 0.0, 1.0, 0.0);
  }

  /** Helper: GlidesSquareToLattice for the glide in the line y = -c. */
  lemma HorizontalGlideSquare(c: real, p: Point)
    ensures ValidOp(Glide(Reflect(0.0, 1.0, c), GlideShift()))
    ensures Apply(Glide(Reflect(0.0, 1.0, c), GlideShift()), Apply(Glide(Reflect(0.0, 1.0, c), GlideShift()), p, false), false)
         == Apply(Translations()[8], p, false)
  {
    GlideSquare(p, 0.0, 1.0, c, MaxX - T1, MaxY - T2);
    MirroredShift(c);
  }

  /** Helper: the glides of pg and cm all use a horizontal mirror and the
      glide offset. */
  lemma GlideForms(g: Op)
    requires g in Glides() || g == CentredOps()[0] || g == CentredOps()[3]
    ensures g == Glide(Reflect(0.0, 1.0, g.mirror.c), GlideShift())
  {
  }

  /** Each glide of pg and cm, applied twice, is the translation onto the
      left neighbouring cell, the last of the nine translations. */
  lemma GlidesSquareToLattice(g: Op, p: Point)
    requires g in Glides() || g == CentredOps()[0] || g == CentredOps()[3]
    ensures ValidOp(g)
    ensures Apply(g, Apply(g, p, false), false) == Apply(Translations()[8], p, false)
  {
    GlideForms(g);
    HorizontalGlideSquare(g.mirror.c, p);
  }

  /** The translation of cm, applied twice, is also that translation: it is
      the half-cell shift that makes cm a centred group. */
  lemma CentringShift(p: Point)
    ensures Apply(CentredOps()[2], Apply(CentredOps()[2], p, false), false) == Apply(Translations()[8], p, false)
  {
  }

  /** Helper: the operators of p2 are half-turns and those of pm are
      reflections. */
  lemma Kinds(i: nat)
    ensures i < 9 ==> HalfTurns()[i].Rotate? && HalfTurns()[i].cos == -1.0 && HalfTurns()[i].sin == 0.0
    ensures i < 3 ==> HorizontalMirrors()[i].Reflect? && VerticalMirrors()[i].Reflect?
  {
    if i < 9 {
      HalfTurnCentre(i);
    }
    if i < 3 {
      MirrorAt(i);
    }
  }

  /** The half-turns and the mirrors of the table undo themselves. */
  lemma InvolutionsOfCatalog(name: string, i: nat, p: Point, relative: bool)
    requires name == "p2" || name == "pm" || name == "pmm" || name == "pmg"
    requires i < |Groups()[name]|
    ensures ValidOp(Groups()[name][i])
    ensures Apply(Groups()[name][i], Apply(Groups()[name][i], p, relative), relative) == p
  {
    AllOpsValid();
    var op := Groups()[name][i];
    var hm, vm := HorizontalMirrors(), VerticalMirrors();
    if name == "p2" || name == "pm" {
      Kinds(i);
    } else if i < 9 {
      Kinds(i);
      assert op == HalfTurns()[i];
    } else if name == "pmm" {
      assert op == (if i < 12 then hm[i - 9] else vm[i - 12]);
      Kinds(if i < 12 then i - 9 else i - 12);
    }
    SelfInverse(op, p, relative);
  }

  /** The closures the page hands to the motif for a group. */
  function GroupTransforms(name: string): (fs: seq<Transform>)
    requires name in Groups()
    ensures |fs| == |Groups()[name]|
  {
    AllOpsValid();
    var ops := Groups()[name];
    seq(|ops|, i requires 0 <= i < |ops| => Image(ops[i]))
  }

  /** The page: the motif of the shown group, 9 tiles for the motif itself
      and 9 for each of the group's ten operators. */
  method Page(pathD: string, fmt: NumberFormat) returns (tor: seq<string>)
    requires WellFormed(pathD) && PrintsTokens(fmt)
    ensures tor == Orbit(Bases(pathD, GroupTransforms(Shown), fmt), fmt)
    ensures |tor| == 99
  {
    GroupsShape();
    tor := BuildOrbit(pathD, GroupTransforms(Shown), fmt);
  }
}
