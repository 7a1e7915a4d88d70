/** `applyTransform`: cut a path string into commands, read each command's
    operands as numbers, transform its coordinate pairs by one operator, and
    print the commands back, joined by spaces. */
module PathTransform {
  import opened Geometry
  import opened PathSyntax

  /** The number conversions the page relies on: `parseFloat` and
      `Number.prototype.toString`. Neither's text format is modelled. */
  datatype NumberFormat = NumberFormat(parse: string -> real, show: real -> string)

  /** A printed number is a token that holds no command letter, as the
      printed form of a finite number is. */
  ghost predicate PrintsTokens(fmt: NumberFormat) {
    forall v :: IsToken(fmt.show(v)) && NoCommandLetter(fmt.show(v))
  }

  /** `toLowerCase` on the characters the page can meet as command letters. */
  function ToLower(c: char): char {
    if 'A' <= c <= 'Z' then (c as int + 32) as char else c
  }

  /** A command is relative when lower-casing leaves its letter alone. */
  predicate IsRelative(op: char) {
    ToLower(op) == op
  }

  predicate IsClose(op: char) {
    op == 'z' || op == 'Z'
  }

  predicate IsCubic(op: char) {
    op == 'c' || op == 'C'
  }

  predicate IsQuadratic(op: char) {
    op == 'q' || op == 'Q'
  }

  predicate IsArc(op: char) {
    op == 'a' || op == 'A'
  }

  /** The number of operands a command reads and writes: none for a close,
      three pairs for a cubic, two pairs for a quadratic, five scalars and an
      end point for an arc, and one pair for every other letter. */
  function Arity(op: char): nat {
    if IsClose(op) then 0
    else if IsCubic(op) then 6
    else if IsQuadratic(op) then 4
    else if IsArc(op) then 7
    else 2
  }

  /** The `transform` argument of `applyTransform`: a closure from the
      coordinates of a point and the relative flag to the new point. */
  type Transform = (real, real, bool) -> Point

  /** The closure the page writes for an operator. */
  function Image(op: Op): Transform
    requires ValidOp(op)
  {
    (x, y, relative) => Apply(op, Point(x, y), relative)
  }

  /** The i-th coordinate pair of an operand list. */
  function PairAt(args: seq<real>, i: nat): Point
    requires 2 * i + 1 < |args|
  {
    Point(args[2 * i], args[2 * i + 1])
  }

  /** `transform(path[i], path[i + 1], relative)` as a pair of numbers. */
  function TransformedPair(f: Transform, args: seq<real>, i: nat, relative: bool): seq<real>
    requires i + 1 < |args|
  {
    var p := f(args[i], args[i + 1], relative);
    [p.x, p.y]
  }

  /** `getTransformed`: the operands of one command after the transform. Each
      coordinate pair is transformed on its own, as relative exactly when the
      letter is lower case; an arc's five leading scalars pass through;
      operands past the command's arity are dropped. */
  function TransformArgs(op: char, args: seq<real>, f: Transform): (r: seq<real>)
    requires |args| >= Arity(op)
    ensures |r| == Arity(op)
    ensures IsArc(op) ==>
      r[..5] == args[..5] && Point(r[5], r[6]) == f(args[5], args[6], IsRelative(op))
    ensures !IsArc(op) ==>
      forall i :: 0 <= i < Arity(op) / 2 ==> PairAt(r, i) == f(args[2 * i], args[2 * i + 1], IsRelative(op))
  {
    var relative := IsRelative(op);
    if IsClose(op) then []
    else if IsCubic(op) then
      TransformedPair(f, args, 0, relative) + TransformedPair(f, args, 2, relative)
        + TransformedPair(f, args, 4, relative)
    else if IsQuadratic(op) then
      TransformedPair(f, args, 0, relative) + TransformedPair(f, args, 2, relative)
    else if IsArc(op) then
      args[..5] + TransformedPair(f, args, 5, relative)
    else
      TransformedPair(f, args, 0, relative)
  }

  /** The numbers of a command piece: its text after the letter, tokenized and
      parsed. */
  function Operands(d: string, fmt: NumberFormat): seq<real>
    requires d != []
  {
    var toks := Tokens(d[1..]);
    seq(|toks|, i requires 0 <= i < |toks| => fmt.parse(toks[i]))
  }

  function Printed(vals: seq<real>, fmt: NumberFormat): seq<string> {
    seq(|vals|, i requires 0 <= i < |vals| => fmt.show(vals[i]))
  }

  /** `transformed.map(p => p.toString()).join(",")`. */
  function Serialize(vals: seq<real>, fmt: NumberFormat): string {
    Join(",", Printed(vals, fmt))
  }

  /** A command piece the transformer can work on: it has a letter and at
      least as many operand tokens as the letter needs. */
  predicate CommandOk(d: string) {
    d != [] && |Tokens(d[1..])| >= Arity(d[0])
  }

  /** A path whose every command is well formed. The empty path has no
      command letter at all (the page fails on it). */
  predicate WellFormed(s: string) {
    s != [] && forall i :: 0 <= i < |SplitCommands(s)| ==> CommandOk(SplitCommands(s)[i])
  }

  /** One command, transformed and printed again. */
  function TransformCommand(d: string, f: Transform, fmt: NumberFormat): string
    requires CommandOk(d)
  {
    [d[0]] + Serialize(TransformArgs(d[0], Operands(d, fmt), f), fmt)
  }

  function TransformPieces(s: string, f: Transform, fmt: NumberFormat): seq<string>
    requires WellFormed(s)
  {
    var ps := SplitCommands(s);
    seq(|ps|, i requires 0 <= i < |ps| => TransformCommand(ps[i], f, fmt))
  }

  /** `applyTransform(pathD, transform)`. */
  function ApplyTransform(s: string, f: Transform, fmt: NumberFormat): string
    requires WellFormed(s)
  {
    Join(" ", TransformPieces(s, f, fmt))
  }

  /** The command letters of a path, in order. */
  function Letters(s: string): seq<char>
    requires s != []
  {
    var ps := SplitCommands(s);
    seq(|ps|, i requires 0 <= i < |ps| => ps[i][0])
  }

  /** The numbers read back from printed numbers: a command printed with no
      operand reads back one number, that of the empty token. */
  function Reread(vals: seq<real>, fmt: NumberFormat): seq<real> {
    if vals == [] then [fmt.parse("")]
    else seq(|vals|, i requires 0 <= i < |vals| => fmt.parse(fmt.show(vals[i])))
  }

  // ---------------------------------------------------------------------
  // Properties of one command

  /** Only lower-case command letters are relative. */
  lemma RelativeIffLowercase(op: char)
    requires IsCommandLetter(op)
    ensures IsRelative(op) <==> op in "lmchvsqtaz"
  {
  }

  /** The zero translation keeps a command's operands, up to its arity. */
  lemma ZeroTranslationKeepsArgs(op: char, args: seq<real>)
    requires |args| >= Arity(op)
    ensures TransformArgs(op, args, Image(Translate(0.0, 0.0))) == args[..Arity(op)]
  {
    var r := TransformArgs(op, args, Image(Translate(0.0, 0.0)));
    if IsArc(op) {
      assert r == r[..5] + [r[5], r[6]];
    } else {
      forall m | 0 <= m < |r| ensures r[m] == args[m] {
        assert PairAt(r, m / 2) == Point(args[m / 2 * 2], args[m / 2 * 2 + 1]);
      }
    }
  }

  /** g after f, as one closure. */
  ghost predicate Composes(f: Transform, g: Transform, h: Transform) {
    forall x, y, relative :: h(x, y, relative) == g(f(x, y, relative).x, f(x, y, relative).y, relative)
  }

  /** Helper: an arc's five scalars pass through both transforms and its end
      point is transformed twice. */
  lemma ComposeArc(op: char, args: seq<real>, once: seq<real>, l: seq<real>, r: seq<real>,
                   f: Transform, g: Transform, h: Transform)
    requires Composes(f, g, h) && |args| >= 7 && |once| == |l| == |r| == 7
    requires once[..5] == args[..5] && Point(once[5], once[6]) == f(args[5], args[6], IsRelative(op))
    requires l[..5] == once[..5] && Point(l[5], l[6]) == g(once[5], once[6], IsRelative(op))
    requires r[..5] == args[..5] && Point(r[5], r[6]) == h(args[5], args[6], IsRelative(op))
    ensures l == r
  {
    ComposePoint(args[5], args[6], IsRelative(op), Point(once[5], once[6]), Point(l[5], l[6]), Point(r[5], r[6]), f, g, h);
    assert l[..5] == r[..5];
    assert l == l[..5] + [l[5], l[6]];
    assert r == r[..5] + [r[5], r[6]];
  }

  /** Helper: each of the n coordinate pairs is transformed twice. */
  lemma ComposePairs(op: char, args: seq<real>, once: seq<real>, l: seq<real>, r: seq<real>,
                     f: Transform, g: Transform, h: Transform, n: nat)
    requires Composes(f, g, h) && |args| >= 2 * n && |once| == |l| == |r| == 2 * n
    requires forall i :: 0 <= i < n ==> PairAt(once, i) == f(args[2 * i], args[2 * i + 1], IsRelative(op))
    requires forall i :: 0 <= i < n ==> PairAt(l, i) == g(once[2 * i], once[2 * i + 1], IsRelative(op))
    requires forall i :: 0 <= i < n ==> PairAt(r, i) == h(args[2 * i], args[2 * i + 1], IsRelative(op))
    ensures l == r
  {
    forall m | 0 <= m < |r| ensures l[m] == r[m] {
      var i := m / 2;
      assert m == 2 * i || m == 2 * i + 1;
      ComposePoint(args[2 * i], args[2 * i + 1], IsRelative(op), PairAt(once, i), PairAt(l, i), PairAt(r, i), f, g, h);
    }
  }

  /** Helper: one point transformed by f and then g, and by h. */
  lemma ComposePoint(x: real, y: real, relative: bool, once: Point, l: Point, r: Point,
                     f: Transform, g: Transform, h: Transform)
    requires Composes(f, g, h)
    requires once == f(x, y, relative) && l == g(once.x, once.y, relative) && r == h(x, y, relative)
    ensures l == r
  {
  }

  /** Transforming a command's operands by f and then by g is transforming
      them by h, when h is g after f. */
  lemma ComposeArgs(op: char, args: seq<real>, f: Transform, g: Transform, h: Transform)
    requires |args| >= Arity(op) && Composes(f, g, h)
    ensures TransformArgs(op, TransformArgs(op, args, f), g) == TransformArgs(op, args, h)
  {
    var once := TransformArgs(op, args, f);
    var l := TransformArgs(op, once, g);
    var r := TransformArgs(op, args, h);
    if IsArc(op) {
      ComposeArc(op, args, once, l, r, f, g, h);
    } else {
      ComposePairs(op, args, once, l, r, f, g, h, Arity(op) / 2);
    }
  }

  /** Transforming a command's operands by one operator and then by another
      is transforming them by their glide. */
  lemma GlideArgs(op: char, args: seq<real>, mirror: Op, shift: Op)
    requires ValidOp(mirror) && ValidOp(shift) && |args| >= Arity(op)
    ensures TransformArgs(op, TransformArgs(op, args, Image(mirror)), Image(shift))
         == TransformArgs(op, args, Image(Glide(mirror, shift)))
  {
    var f, g, h := Image(mirror), Image(shift), Image(Glide(mirror, shift));
    forall x, y, relative
      ensures h(x, y, relative) == g(f(x, y, relative).x, f(x, y, relative).y, relative)
    {
      var p := Apply(mirror, Point(x, y), relative);
      assert Point(p.x, p.y) == p;
    }
    assert Composes(f, g, h);
    ComposeArgs(op, args, f, g, h);
  }

  // ---------------------------------------------------------------------
  // Properties of the whole path

  lemma PrintedToken(fmt: NumberFormat, v: real)
    requires PrintsTokens(fmt)
    ensures IsToken(fmt.show(v)) && NoCommandLetter(fmt.show(v))
  {
  }

  lemma SerializeNoLetter(vals: seq<real>, fmt: NumberFormat)
    requires PrintsTokens(fmt)
    ensures NoCommandLetter(Serialize(vals, fmt))
  {
    var ws := Printed(vals, fmt);
    assert NoCommandLetter(",");
    forall i | 0 <= i < |ws| ensures NoCommandLetter(ws[i]) {
      PrintedToken(fmt, vals[i]);
    }
    JoinNoCommandLetter(",", ws);
  }

  /** The transformed pieces form a command split with the input's letters. */
  lemma TransformPiecesSplit(s: string, f: Transform, fmt: NumberFormat)
    requires WellFormed(s) && PrintsTokens(fmt)
    ensures var outs := TransformPieces(s, f, fmt);
      outs != [] && IsCommandSplit(outs) &&
      forall i :: 0 <= i < |outs| ==> outs[i][0] == SplitCommands(s)[i][0]
  {
    var ins := SplitCommands(s);
    var outs := TransformPieces(s, f, fmt);
    forall i | 0 <= i < |outs|
      ensures outs[i] != [] && outs[i][0] == ins[i][0] && NoCommandLetter(outs[i][1..])
    {
      var vals := TransformArgs(ins[i][0], Operands(ins[i], fmt), f);
      assert outs[i][1..] == Serialize(vals, fmt);
      SerializeNoLetter(vals, fmt);
    }
  }

  /** Command e of a transformed path, cut again, stands for input command d:
      it has d's letter, is well formed, and its operands read back as d's
      transformed operands. */
  predicate ReadsBack(e: string, d: string, f: Transform, fmt: NumberFormat)
    requires CommandOk(d)
  {
    e != [] && e[0] == d[0] && CommandOk(e) &&
    Operands(e, fmt) == Reread(TransformArgs(d[0], Operands(d, fmt), f), fmt)
  }

  /** Helper: a letter followed by printed numbers, and perhaps a space, is
      read back as the letter and the numbers, printed and parsed once. */
  lemma ReadBackText(e: string, op: char, vals: seq<real>, tail: string, fmt: NumberFormat)
    requires PrintsTokens(fmt) && |vals| == Arity(op)
    requires tail == "" || tail == " "
    requires e == [op] + Serialize(vals, fmt) + tail
    ensures e != [] && e[0] == op && CommandOk(e)
    ensures Operands(e, fmt) == Reread(vals, fmt)
  {
    var ws := Printed(vals, fmt);
    assert e[1..] == Join(",", ws) + tail;
    forall i | 0 <= i < |ws| ensures IsToken(ws[i]) {
      PrintedToken(fmt, vals[i]);
    }
    TokensOfJoin(ws, tail);
    ReadBackValues(vals, Tokens(e[1..]), fmt);
  }

  /** Helper: one command of the transformed path, read back. */
  lemma ReadBackCommand(d: string, tail: string, f: Transform, fmt: NumberFormat, e: string)
    requires CommandOk(d) && PrintsTokens(fmt)
    requires tail == "" || tail == " "
    requires e == TransformCommand(d, f, fmt) + tail
    ensures ReadsBack(e, d, f, fmt)
  {
    ReadBackText(e, d[0], TransformArgs(d[0], Operands(d, fmt), f), tail, fmt);
  }

  /** Helper: parsing the printed numbers. */
  lemma ReadBackValues(vals: seq<real>, toks: seq<string>, fmt: NumberFormat)
    requires toks == if vals == [] then [""] else Printed(vals, fmt)
    ensures seq(|toks|, i requires 0 <= i < |toks| => fmt.parse(toks[i])) == Reread(vals, fmt)
  {
  }

  /** Helper: command i of the output, cut again. */
  lemma ReadBackAt(pieces: seq<string>, i: nat, d: string, f: Transform, fmt: NumberFormat, e: string)
    requires CommandOk(d) && PrintsTokens(fmt)
    requires i < |pieces| && pieces[i] == TransformCommand(d, f, fmt)
    requires e == Padded(pieces)[i]
    ensures ReadsBack(e, d, f, fmt)
  {
    PaddedTail(pieces, i, e);
    ReadBackPadded(pieces, i, d, f, fmt, e);
  }

  lemma PaddedTail(pieces: seq<string>, i: nat, e: string)
    requires i < |pieces| && e == Padded(pieces)[i]
    ensures e == pieces[i] + (if i < |pieces| - 1 then " " else "")
  {
    PaddedAt(pieces, i);
  }

  lemma ReadBackPadded(pieces: seq<string>, i: nat, d: string, f: Transform, fmt: NumberFormat, e: string)
    requires CommandOk(d) && PrintsTokens(fmt)
    requires i < |pieces| && pieces[i] == TransformCommand(d, f, fmt)
    requires e == pieces[i] + (if i < |pieces| - 1 then " " else "")
    ensures ReadsBack(e, d, f, fmt)
  {
    ReadBackCommand(d, if i < |pieces| - 1 then " " else "", f, fmt, e);
  }

  /** Helper: the output, cut again, is the padded transformed pieces. */
  lemma ReadBackSplit(s: string, f: Transform, fmt: NumberFormat)
    requires WellFormed(s) && PrintsTokens(fmt)
    ensures ApplyTransform(s, f, fmt) != []
    ensures SplitCommands(ApplyTransform(s, f, fmt)) == Padded(TransformPieces(s, f, fmt))
  {
    var pieces := TransformPieces(s, f, fmt);
    TransformPiecesSplit(s, f, fmt);
    SplitJoined(pieces);
    JoinHead(" ", pieces);
  }

  /** Helper: every padded transformed piece reads back as its command. */
  lemma PiecesReadBack(ins: seq<string>, pieces: seq<string>, f: Transform, fmt: NumberFormat)
    requires PrintsTokens(fmt) && |pieces| == |ins|
    requires forall i :: 0 <= i < |ins| ==> CommandOk(ins[i])
    requires forall i :: 0 <= i < |ins| ==> pieces[i] == TransformCommand(ins[i], f, fmt)
    ensures forall i :: 0 <= i < |ins| ==> ReadsBack(Padded(pieces)[i], ins[i], f, fmt)
  {
    forall i | 0 <= i < |ins| ensures ReadsBack(Padded(pieces)[i], ins[i], f, fmt) {
      ReadBackAt(pieces, i, ins[i], f, fmt, Padded(pieces)[i]);
    }
  }

  /** Helper: a path whose commands read back as those of s is well formed,
      has the letters of s, and has the transformed operands of s. */
  lemma ReadsBackAll(s: string, out: string, f: Transform, fmt: NumberFormat)
    requires WellFormed(s) && out != []
    requires |SplitCommands(out)| == |SplitCommands(s)|
    requires forall i :: 0 <= i < |SplitCommands(s)| ==>
      ReadsBack(SplitCommands(out)[i], SplitCommands(s)[i], f, fmt)
    ensures WellFormed(out)
    ensures Letters(out) == Letters(s)
    ensures var ins := SplitCommands(s); var outs := SplitCommands(out);
      forall i :: 0 <= i < |ins| ==>
        Operands(outs[i], fmt) == Reread(TransformArgs(ins[i][0], Operands(ins[i], fmt), f), fmt)
  {
    var ins, outs := SplitCommands(s), SplitCommands(out);
    forall i | 0 <= i < |outs| ensures CommandOk(outs[i]) && outs[i][0] == ins[i][0] {
      assert ReadsBack(outs[i], ins[i], f, fmt);
    }
    assert WellFormed(out);
    var lo, ls := Letters(out), Letters(s);
    assert |lo| == |ls|;
    forall i | 0 <= i < |lo| ensures lo[i] == ls[i] {
      assert lo[i] == outs[i][0] && ls[i] == ins[i][0];
    }
  }

  /** `applyTransform` keeps the commands: its output, cut again, has the
      input's command letters in the input's order, every command is well
      formed again, and each command's operands read back as the input's
      operands under the transform (printed and parsed once). */
  lemma ApplyTransformCommands(s: string, f: Transform, fmt: NumberFormat)
    requires WellFormed(s) && PrintsTokens(fmt)
    ensures WellFormed(ApplyTransform(s, f, fmt))
    ensures Letters(ApplyTransform(s, f, fmt)) == Letters(s)
    ensures var ins := SplitCommands(s); var outs := SplitCommands(ApplyTransform(s, f, fmt));
      |outs| == |ins| &&
      forall i :: 0 <= i < |ins| ==>
        Operands(outs[i], fmt) == Reread(TransformArgs(ins[i][0], Operands(ins[i], fmt), f), fmt)
  {
    ReadBackSplit(s, f, fmt);
    PiecesReadBack(SplitCommands(s), TransformPieces(s, f, fmt), f, fmt);
    ReadsBackAll(s, ApplyTransform(s, f, fmt), f, fmt);
  }
}
