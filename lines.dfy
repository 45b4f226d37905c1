/** The comma-separated line format shared by the graph file and the
    tree-decomposition file, and the declarative meaning of a sequence of such
    lines. Both parsers split a line on `,`, skip it when its trimmed first
    field is empty, treat a non-empty trimmed second field as an edge to that
    name, and otherwise read a non-blank third field as the label of the first
    name. */
module Lines {
  import opened Seqs
  import opened Text

  /** What one line says. The label keeps its raw (untrimmed) text, as both
      parsers use it untrimmed. */
  datatype Line =
    | Blank
    | Mention(name: string)
    | Link(name: string, other: string)
    | Labelled(name: string, text: string)

  /** A name as both parsers accept it: a trimmed, non-empty field. */
  predicate IsName(s: string) {
    s != [] && ',' !in s && !IsWhitespace(s[0]) && !IsWhitespace(s[|s| - 1])
  }

  /** The classification done by the body of both parser loops
      (`continue` on an empty name, on fewer than two fields, after an edge,
      and on a missing or blank third field). */
  function ParseLine(line: string): (r: Line)
    ensures r.Blank? <==> AllWhitespace(Split(line, ',')[0])
    ensures !r.Blank? ==> IsName(r.name)
    ensures r.Link? ==> IsName(r.other)
    ensures r.Labelled? ==> ',' !in r.text && !AllWhitespace(r.text)
  {
    var fields := Split(line, ',');
    var name := Trim(fields[0]);
    if name == [] then Blank
    else if |fields| < 2 then Mention(name)
    else
      var second := Trim(fields[1]);
      if second != [] then Link(name, second)
      else if |fields| < 3 || Trim(fields[2]) == [] then Mention(name)
      else Labelled(name, fields[2])
  }

  /** A line holding only a name is a mention of that name. */
  lemma ParseMention(a: string)
    requires IsName(a)
    ensures ParseLine(a) == Mention(a)
  {
    SplitFree(a, ',');
    TrimOfName(a);
  }

  /** `a,b` is an edge between the names `a` and `b`. */
  lemma ParseLink(a: string, b: string)
    requires IsName(a) && IsName(b)
    ensures ParseLine(a + "," + b) == Link(a, b)
  {
    SplitJoin([a, b], ',');
    assert Join([a, b], ',') == a + "," + b by {
      assert [a, b][1..] == [b];
    }
    TrimOfName(a);
    TrimOfName(b);
  }

  /** `a,,label` labels `a` with `label`. */
  lemma ParseLabel(a: string, text: string)
    requires IsName(a) && ',' !in text && !AllWhitespace(text)
    ensures ParseLine(a + ",," + text) == Labelled(a, text)
  {
    SplitJoin([a, "", text], ',');
    assert Join([a, "", text], ',') == a + ",," + text by {
      assert [a, "", text][1..] == ["", text];
      assert ["", text][1..] == [text];
      assert Join(["", text], ',') == "," + text;
    }
    TrimOfName(a);
    assert AllWhitespace("");
  }

  lemma TrimOfName(a: string)
    requires IsName(a)
    ensures Trim(a) == a
  {
    assert TrimStart(a) == a;
    assert TrimEnd(a) == a;
  }

  // ---------------------------------------------------------------------------
  // The meaning of a sequence of lines

  /** Every line classified. */
  function Parse(lines: seq<string>): (r: seq<Line>)
    ensures |r| == |lines|
  {
    if lines == [] then [] else Parse(lines[..|lines| - 1]) + [ParseLine(lines[|lines| - 1])]
  }

  /** Classifying one more line appends its classification. */
  lemma ParseStep(lines: seq<string>, i: nat)
    requires i < |lines|
    ensures Parse(lines[..i + 1]) == Parse(lines[..i]) + [ParseLine(lines[i])]
  {
    assert lines[..i + 1][..i] == lines[..i];
  }

  /** Line `k` of the classification is the classification of line `k`. */
  lemma {:induction false} ParseAt(lines: seq<string>, k: nat)
    requires k < |lines|
    ensures Parse(lines)[k] == ParseLine(lines[k])
  {
    if k < |lines| - 1 {
      ParseAt(lines[..|lines| - 1], k);
    }
  }

  /** The names a line mentions, in the order the parsers meet them. */
  function Names(l: Line): seq<string> {
    match l
    case Blank => []
    case Mention(a) => [a]
    case Link(a, b) => [a, b]
    case Labelled(a, _) => [a]
  }

  /** Every name mentioned by the lines, in order, with repeats. */
  function Mentions(ls: seq<Line>): seq<string> {
    if ls == [] then []
    else Mentions(ls[..|ls| - 1]) + Names(ls[|ls| - 1])
  }

  /** `xs` with every repeat after the first occurrence removed. */
  function Distinct(xs: seq<string>): (r: seq<string>)
    ensures NoDup(r)
    ensures forall x :: x in r <==> x in xs
  {
    if xs == [] then []
    else
      var d := Distinct(xs[..|xs| - 1]);
      var x := xs[|xs| - 1];
      if x in d then d else d + [x]
  }

  /** The names in order of first appearance: the order in which the parsers
      hand out dense indices. */
  function Order(ls: seq<Line>): (r: seq<string>)
    ensures NoDup(r)
    ensures forall x :: x in r <==> x in Mentions(ls)
  {
    Distinct(Mentions(ls))
  }

  /** Adding a name to a duplicate-free sequence: keeps it when present, appends
      it otherwise. */
  function AddName(d: seq<string>, x: string): (r: seq<string>)
    ensures x in r && forall y :: y in r <==> y in d || y == x
    ensures NoDup(d) ==> NoDup(r)
    ensures |r| >= |d| && r[..|d|] == d
  {
    if x in d then d else d + [x]
  }

  /** `AddName` for each of `ys` in turn. */
  function AddNames(d: seq<string>, ys: seq<string>): seq<string> {
    if ys == [] then d else AddName(AddNames(d, ys[..|ys| - 1]), ys[|ys| - 1])
  }

  /** The last element of `xs + ys` is that of `ys`, and what precedes it
      is `xs` followed by the rest of `ys`. */
  lemma AppendSplit<T>(xs: seq<T>, ys: seq<T>)
    requires ys != []
    ensures (xs + ys)[..|xs + ys| - 1] == xs + ys[..|ys| - 1]
    ensures (xs + ys)[|xs + ys| - 1] == ys[|ys| - 1]
  {
  }

  lemma {:induction false} DistinctAppend(xs: seq<string>, ys: seq<string>)
    ensures Distinct(xs + ys) == AddNames(Distinct(xs), ys)
    decreases |ys|
  {
    if ys == [] {
      assert xs + ys == xs;
    } else {
      var init, last := ys[..|ys| - 1], ys[|ys| - 1];
      DistinctAppend(xs, init);
      AppendSplit(xs, ys);
      assert Distinct(xs + ys) == AddName(Distinct(xs + init), last);
    }
  }

  lemma AddNamesOne(d: seq<string>, a: string)
    ensures AddNames(d, [a]) == AddName(d, a)
  {
    assert [a][..0] == [];
  }

  lemma AddNamesTwo(d: seq<string>, a: string, b: string)
    ensures AddNames(d, [a, b]) == AddName(AddName(d, a), b)
  {
    assert [a, b][..1] == [a];
    AddNamesOne(d, a);
  }

  /** One more line extends the order by the new names that line mentions. */
  lemma OrderStep(ls: seq<Line>, l: Line)
    ensures Order(ls + [l]) == AddNames(Order(ls), Names(l))
  {
    assert (ls + [l])[..|ls|] == ls;
    assert Mentions(ls + [l]) == Mentions(ls) + Names(l);
    DistinctAppend(Mentions(ls), Names(l));
  }

  /** A line naming one name adds it to the order if new. */
  lemma OrderOne(ls: seq<Line>, l: Line, a: string)
    requires Names(l) == [a]
    ensures Order(ls + [l]) == AddName(Order(ls), a)
  {
    OrderStep(ls, l);
    AddNamesOne(Order(ls), a);
  }

  /** An edge line adds its two names to the order, first one first. */
  lemma OrderLink(ls: seq<Line>, a: string, b: string)
    ensures Order(ls + [Link(a, b)]) == AddName(AddName(Order(ls), a), b)
  {
    OrderStep(ls, Link(a, b));
    AddNamesTwo(Order(ls), a, b);
  }

  /** A blank line leaves the order as it is. */
  lemma OrderBlank(ls: seq<Line>)
    ensures Order(ls + [Blank]) == Order(ls)
  {
    OrderStep(ls, Blank);
  }

  /** The names linked to `n`, in line order; a line `n,n` links `n` to
      itself twice. */
  function Neighbours(ls: seq<Line>, n: string): seq<string> {
    if ls == [] then []
    else Neighbours(ls[..|ls| - 1], n) + LinkedTo(ls[|ls| - 1], n)
  }

  /** What one line adds to the neighbours of `n`. */
  function LinkedTo(l: Line, n: string): seq<string> {
    match l
    case Link(a, b) => (if a == n then [b] else []) + (if b == n then [a] else [])
    case _ => []
  }

  /** One more line adds what it links to `n` to the neighbours of `n`. */
  lemma NeighboursStep(ls: seq<Line>, l: Line, n: string)
    ensures Neighbours(ls + [l], n) == Neighbours(ls, n) + LinkedTo(l, n)
  {
    assert (ls + [l])[..|ls|] == ls;
  }

  /** Links go both ways. */
  lemma {:induction false} NeighboursSymmetric(ls: seq<Line>, a: string, b: string)
    ensures b in Neighbours(ls, a) <==> a in Neighbours(ls, b)
  {
    if ls != [] {
      NeighboursSymmetric(ls[..|ls| - 1], a, b);
      var l := ls[|ls| - 1];
      assert b in LinkedTo(l, a) <==> a in LinkedTo(l, b);
    }
  }

  /** Only mentioned names are linked. */
  lemma {:induction false} NeighboursMentioned(ls: seq<Line>, n: string)
    ensures forall x :: x in Neighbours(ls, n) ==> x in Mentions(ls)
  {
    if ls != [] {
      NeighboursMentioned(ls[..|ls| - 1], n);
    }
  }

  /** A name the lines never mention has no neighbours. */
  lemma {:induction false} UnmentionedNeighbours(ls: seq<Line>, n: string)
    requires n !in Mentions(ls)
    ensures Neighbours(ls, n) == []
  {
    if ls != [] {
      UnmentionedNeighbours(ls[..|ls| - 1], n);
    }
  }
}
