/**
 * How bin/init.js interprets the three answers it reads: the yes/no confirmation for the
 * detected tools, the numbered tool menu shown when none was detected, and the guide list.
 * Every function takes the answer already trimmed, as the prompt helper returns it.
 */
module Selection {
  import opened Wrappers
  import opened StringOps
  import opened Catalog

  /** The confirmation: every detected tool unless the answer, lower-cased, is exactly "n". */
  function ConfirmDetected(detected: seq<Tool>, answer: string): seq<Tool> {
    if Lower(answer) != "n" then detected else []
  }

  /** Only "n" and "N" decline; the empty default, "y" and any other text accept. */
  lemma ConfirmDeclinesOnN(detected: seq<Tool>, answer: string)
    ensures ConfirmDetected(detected, answer) == if answer == "n" || answer == "N" then [] else detected
  {
    LowerIsN(answer);
  }

  /** The menu choice: `parseInt(answer) - 1` as an index into the tool catalog, if it is one. */
  function MenuChoice(answer: string): (r: seq<Tool>)
    ensures |r| <= 1
    ensures forall t :: t in r ==> t in TOOL_CONFIGS
    ensures ParseInt(answer) == None ==> r == []
  {
    match ParseInt(answer)
    case None => []
    case Some(n) =>
      var idx := n - 1;
      if 0 <= idx < |TOOL_CONFIGS| then [TOOL_CONFIGS[idx]] else []
  }

  /**
   * Typing a number selects the tool it numbers, 1 to 4; the "skip" entry 5 and every other
   * number select nothing, and so does text after the number.
   */
  lemma MenuChoiceOfNumber(k: int, rest: string)
    requires rest == [] || !IsDigit(rest[0])
    ensures MenuChoice(ShowInt(k) + rest) ==
      if 1 <= k <= |TOOL_CONFIGS| then [TOOL_CONFIGS[k - 1]] else []
  {
    ParseShowInt(k, rest);
  }

  /** The tool selection: confirmation when something was detected, otherwise the menu. */
  function SelectTools(detected: seq<Tool>, answer: string): (r: seq<Tool>)
    ensures detected != [] ==> r == [] || r == detected
    ensures detected == [] ==> |r| <= 1 && forall t :: t in r ==> t in TOOL_CONFIGS
  {
    if |detected| > 0 then ConfirmDetected(detected, answer) else MenuChoice(answer)
  }

  /** One piece of the guide list: `GUIDES[parseInt(piece.trim()) - 1]`, when that is a guide. */
  function ResolvePiece(piece: string): Option<Guide> {
    match ParseInt(Trim(piece))
    case None => None
    case Some(k) => if 1 <= k <= |GUIDES| then Some(GUIDES[k - 1]) else None
  }

  /** `xs.map(f)` flattened: each element contributes the results `f` gives it, in order. */
  function FlatMap<A, B>(xs: seq<A>, f: A -> seq<B>): seq<B>
    decreases |xs|
  {
    if xs == [] then [] else f(xs[0]) + FlatMap(xs[1..], f)
  }

  /** Flattening distributes over concatenation. */
  lemma {:induction false} FlatMapAppend<A, B>(xs: seq<A>, ys: seq<A>, f: A -> seq<B>)
    ensures FlatMap(xs + ys, f) == FlatMap(xs, f) + FlatMap(ys, f)
    decreases |xs|
  {
    if xs == [] {
      assert xs + ys == ys;
    } else {
      assert (xs + ys)[1..] == xs[1..] + ys;
      FlatMapAppend(xs[1..], ys, f);
    }
  }

  /** When each element contributes at most one result, there are at most as many results as elements. */
  lemma {:induction false} FlatMapAtMostOne<A, B>(xs: seq<A>, f: A -> seq<B>)
    requires forall x :: |f(x)| <= 1
    ensures |FlatMap(xs, f)| <= |xs|
    decreases |xs|
  {
    if xs != [] {
      FlatMapAtMostOne(xs[1..], f);
    }
  }

  /** `.map(resolve).filter(Boolean)`: the guides the pieces name, in input order. */
  function ResolveAll(pieces: seq<string>): (r: seq<Guide>)
    ensures |r| <= |pieces|
  {
    FlatMapAtMostOne(pieces, PieceGuides);
    FlatMap(pieces, PieceGuides)
  }

  /** What one piece contributes: its guide, or nothing. */
  function PieceGuides(piece: string): (r: seq<Guide>)
    ensures |r| <= 1
  {
    match ResolvePiece(piece)
    case Some(g) => [g]
    case None => []
  }

  /** A piece only ever contributes a catalog guide. */
  lemma PieceGuidesFromCatalog(piece: string)
    ensures forall g :: g in PieceGuides(piece) ==> g in GUIDES
  {
    match ResolvePiece(piece)
    case Some(g) =>
      var k :| ParseInt(Trim(piece)) == Some(k) && 1 <= k <= |GUIDES| && g == GUIDES[k - 1];
    case None =>
  }

  /** The guide answer: empty selects the whole catalog, otherwise a comma-separated index list. */
  function GuideChoice(answer: string): (r: seq<Guide>)
    ensures answer == "" ==> r == GUIDES
    ensures answer != "" ==> |r| <= CountChar(answer, ',') + 1
  {
    if answer == "" then GUIDES else ResolveAll(Split(answer, ','))
  }

  /** Whatever the answer, only catalog guides are selected. */
  lemma GuideChoiceFromCatalog(answer: string)
    ensures forall j :: 0 <= j < |GuideChoice(answer)| ==> GuideChoice(answer)[j] in GUIDES
  {
    if answer != "" {
      ResolveAllFromCatalog(Split(answer, ','));
    }
  }

  /** Every guide a list answer resolves to is a catalog guide. */
  lemma {:induction false} ResolveAllFromCatalog(pieces: seq<string>)
    ensures forall j :: 0 <= j < |ResolveAll(pieces)| ==> ResolveAll(pieces)[j] in GUIDES
    decreases |pieces|
  {
    if pieces != [] {
      ResolveAllFromCatalog(pieces[1..]);
      var h := PieceGuides(pieces[0]);
      PieceGuidesFromCatalog(pieces[0]);
      var t := ResolveAll(pieces[1..]);
      assert ResolveAll(pieces) == h + t;
      forall j | 0 <= j < |h + t| ensures (h + t)[j] in GUIDES {
        if j < |h| {
          assert (h + t)[j] == h[j];
        } else {
          assert (h + t)[j] == t[j - |h|];
        }
      }
    }
  }

  /** A piece selects `GUIDES[k-1]` exactly when the number it starts with is k in 1..4. */
  lemma ResolvePieceOfNumber(piece: string, k: int)
    requires ParseInt(piece) == Some(k)
    ensures ResolvePiece(piece) == if 1 <= k <= |GUIDES| then Some(GUIDES[k - 1]) else None
  {
    ParseIntTrim(piece);
  }

  /** A piece that does not start with a number selects nothing. */
  lemma ResolvePieceNotANumber(piece: string)
    requires ParseInt(piece) == None
    ensures ResolvePiece(piece) == None
  {
    ParseIntTrim(piece);
  }

  /** Resolution is piece by piece and keeps input order: it distributes over concatenation. */
  lemma ResolveAllAppend(p1: seq<string>, p2: seq<string>)
    ensures ResolveAll(p1 + p2) == ResolveAll(p1) + ResolveAll(p2)
  {
    FlatMapAppend(p1, p2, PieceGuides);
  }

  /** The guide that menu number k stands for, if any. */
  function Numbered(k: int): seq<Guide> {
    if 1 <= k <= |GUIDES| then [GUIDES[k - 1]] else []
  }

  /** A piece that is a number k selects `GUIDES[k-1]` when k is in 1..4 and nothing otherwise. */
  lemma ResolveNumber(k: int)
    ensures PieceGuides(ShowInt(k)) == Numbered(k)
  {
    ParseIntShowInt(k);
    ResolvePieceOfNumber(ShowInt(k), k);
  }

  /** A list answer of two numbers selects what each of them numbers, in order. */
  lemma GuideChoiceOfTwo(a: int, b: int)
    ensures GuideChoice(ShowInt(a) + "," + ShowInt(b)) == Numbered(a) + Numbered(b)
  {
    ResolveTwo(a, b);
    ResolveNumber(a);
    ResolveNumber(b);
  }

  /** A list of two numbers is resolved one number after the other. */
  lemma ResolveTwo(a: int, b: int)
    ensures GuideChoice(ShowInt(a) + "," + ShowInt(b)) == PieceGuides(ShowInt(a)) + PieceGuides(ShowInt(b))
  {
    var x, y := ShowInt(a), ShowInt(b);
    var answer := x + "," + y;
    ShowIntNoComma(a);
    ShowIntNoComma(b);
    assert Join([x, y], ',') == answer by {
      assert Join([x, y][1..], ',') == y;
    }
    SplitJoin([x, y], ',');
    assert answer != "" by { assert |answer| > |x|; }
    assert GuideChoice(answer) == FlatMap([x, y], PieceGuides);
    FlatMapTwo(x, y, PieceGuides);
  }

  /** Two elements contribute their results one after the other. */
  lemma FlatMapTwo<A, B>(x: A, y: A, f: A -> seq<B>)
    ensures FlatMap([x, y], f) == f(x) + f(y)
  {
    assert [x, y][1..] == [y];
    assert FlatMap([y], f) == f(y) + FlatMap([], f) == f(y);
  }

  /** A printed number contains no comma, so it stays one piece of a list. */
  lemma ShowIntNoComma(n: int)
    ensures ',' !in ShowInt(n)
  {
    var m := if n < 0 then -n else n;
    ShowNatSpec(m);
    var d := ShowNat(m);
    assert forall i :: 0 <= i < |d| ==> d[i] != ',';
    if n < 0 {
      assert ShowInt(n) == "-" + d;
      assert forall i :: 0 <= i < |ShowInt(n)| ==> ShowInt(n)[i] != ',' by {
        forall i | 0 <= i < |ShowInt(n)| ensures ShowInt(n)[i] != ',' {
          if i > 0 {
            assert ShowInt(n)[i] == d[i - 1];
          }
        }
      }
    }
  }
}
