/**
 * The relationship store built from a fact file (`_parse_data_file`).
 *
 * Each line is stripped; blank lines and lines starting with `;` are skipped,
 * and so is any line the fact pattern does not match.  A three-identifier fact
 * whose predicate is one of the five relations adds an edge to `graph`; any
 * other three-identifier fact adds a value to `attributes`; a two-identifier
 * fact adds nothing.
 *
 * `Load` is the specification, a fold of `Step` over the lines; `ParseLines`
 * is the loop of the source, proved to compute it.
 */
module Loader {
  import opened Wrappers
  import opened Text
  import opened Facts

  /** The fixed relation types, in the order the source lists them. */
  const Relations: seq<string> := ["Friend", "Colleague", "Family", "Neighbor", "Classmate"]

  function RelationSet(): set<string> {
    set r | r in Relations
  }

  /** key -> person -> set of values: the shape of both `graph` and `attributes`. */
  type Table = map<string, map<string, set<string>>>

  /** `graph`: relation -> source -> destinations; `attributes`: type -> person -> values. */
  datatype Store = Store(graph: Table, attributes: Table)

  /** Value `v` is recorded for person `x` under key `k`. */
  predicate Holds(t: Table, k: string, x: string, v: string) {
    k in t && x in t[k] && v in t[k][x]
  }

  /** Every person entry holds a value: a `defaultdict` entry is only created by adding to it. */
  predicate Tidy(t: Table) {
    forall k, x :: k in t && x in t[k] ==> t[k][x] != {}
  }

  /** Tidy, and every key holds a person: the attribute table only gains keys by adding. */
  predicate Compact(t: Table) {
    Tidy(t) && forall k :: k in t ==> t[k] != map[]
  }

  /** `t[k][x].add(v)` on nested `defaultdict`s. */
  function Add(t: Table, k: string, x: string, v: string): (r: Table)
    ensures forall k', x', v' :: Holds(r, k', x', v') <==> Holds(t, k', x', v') || (k', x', v') == (k, x, v)
    ensures r.Keys == t.Keys + {k}
    ensures Tidy(t) ==> Tidy(r)
    ensures Compact(t) ==> Compact(r)
  {
    var inner := if k in t then t[k] else map[];
    var vals := if x in inner then inner[x] else {};
    t[k := inner[x := vals + {v}]]
  }

  /** The store before any line: the five relations with no edges, no attributes. */
  function Init(): (st: Store)
    ensures st.graph.Keys == RelationSet() && Tidy(st.graph) && Compact(st.attributes)
    ensures forall k, x, v :: !Holds(st.graph, k, x, v) && !Holds(st.attributes, k, x, v)
  {
    Store(map r | r in RelationSet() :: map[], map[])
  }

  /** What the loader makes of one raw line. */
  datatype LineKind = Blank | Comment | Unmatched | Matched(fact: Fact)

  /**
   * A line is blank exactly when it is all whitespace, a comment exactly when
   * its stripped text starts with `;`, and a matched line carries a
   * well-formed fact.
   */
  function Classify(raw: string): (k: LineKind)
    ensures k == Blank <==> AllSpace(raw)
    ensures k == Comment <==> Strip(raw) != [] && Strip(raw)[0] == ';'
    ensures k.Matched? ==> ValidFact(k.fact)
  {
    assert AllSpace(raw) ==> LeadingSpace(raw) == |raw|;
    ClassifyStripped(Strip(raw))
  }

  function ClassifyStripped(line: string): LineKind {
    if line == [] then Blank
    else if line[0] == ';' then Comment
    else
      match MatchFact(line)
      case None => Unmatched
      case Some(f) => Matched(f)
  }

  /**
   * The effect of one line on the store.  It touches at most one of the two
   * tables, removes nothing, and adds no relation beyond the five.
   */
  function Step(st: Store, raw: string): (r: Store)
    ensures r.graph == st.graph || r.attributes == st.attributes
    ensures forall k, x, v :: Holds(st.graph, k, x, v) ==> Holds(r.graph, k, x, v)
    ensures forall k, x, v :: Holds(st.attributes, k, x, v) ==> Holds(r.attributes, k, x, v)
    ensures st.graph.Keys == RelationSet() ==> r.graph.Keys == RelationSet()
  {
    var k := Classify(raw);
    ApplyKeeps(st, k);
    Apply(st, k)
  }

  lemma ApplyKeeps(st: Store, k: LineKind)
    ensures Apply(st, k).graph == st.graph || Apply(st, k).attributes == st.attributes
    ensures forall p, x, v :: Holds(st.graph, p, x, v) ==> Holds(Apply(st, k).graph, p, x, v)
    ensures forall p, x, v :: Holds(st.attributes, p, x, v) ==> Holds(Apply(st, k).attributes, p, x, v)
    ensures st.graph.Keys == RelationSet() ==> Apply(st, k).graph.Keys == RelationSet()
  {
  }

  function Apply(st: Store, kind: LineKind): Store {
    match kind
    case Matched(Fact(pred, a, Some(b))) =>
      if pred in RelationSet() then Store(Add(st.graph, pred, a, b), st.attributes)
      else Store(st.graph, Add(st.attributes, pred, a, b))
    case _ => st
  }

  /** The kind of each line, in order. */
  function Kinds(lines: seq<string>): seq<LineKind> {
    seq(|lines|, i requires 0 <= i < |lines| => Classify(lines[i]))
  }

  /** The store after lines of the given kinds, applied in order. */
  function LoadKinds(ks: seq<LineKind>): (st: Store)
    ensures st.graph.Keys == RelationSet()
    ensures Tidy(st.graph) && Compact(st.attributes)
    ensures forall k :: k in st.attributes ==> k !in RelationSet()
  {
    if |ks| == 0 then Init() else Apply(LoadKinds(ks[..|ks| - 1]), ks[|ks| - 1])
  }

  /** The store after the lines of the file, read in order. */
  function Load(lines: seq<string>): (st: Store)
    ensures st.graph.Keys == RelationSet()
    ensures forall k :: k in st.attributes ==> k !in RelationSet()
  {
    LoadKinds(Kinds(lines))
  }

  /** The body of the loop of `_parse_data_file`, for one raw line. */
  method ReadLine(graph: Table, attributes: Table, raw: string) returns (graph': Table, attributes': Table)
    ensures Store(graph', attributes') == Step(Store(graph, attributes), raw)
  {
    graph', attributes' := graph, attributes;
    var line := Strip(raw);
    ghost var kind := ClassifyStripped(line);
    assert Step(Store(graph, attributes), raw) == Apply(Store(graph, attributes), kind);
    if line == [] || line[0] == ';' {
      return;
    }
    var m := MatchFact(line);
    if m.None? {
      return;
    }
    assert kind == Matched(m.value);
    var pred, a, b := m.value.pred, m.value.subj, m.value.obj;
    if pred in Relations && b.Some? {
      graph' := Add(graph, pred, a, b.value);
    } else if b.Some? {
      attributes' := Add(attributes, pred, a, b.value);
    }
  }

  /** `_parse_data_file` over the lines of the file. */
  method ParseLines(lines: seq<string>) returns (graph: Table, attributes: Table)
    ensures Store(graph, attributes) == Load(lines)
  {
    var init := Init();
    graph, attributes := init.graph, init.attributes;
    ghost var ks := Kinds(lines);
    assert ks[..0] == [];
    var i := 0;
    while i < |lines|
      invariant 0 <= i <= |lines|
      invariant Store(graph, attributes) == LoadKinds(ks[..i])
    {
      graph, attributes := ReadLine(graph, attributes, lines[i]);
      LoadKindsPrefix(ks, i);
      i := i + 1;
    }
    assert ks[..i] == ks;
  }

  // ---------------------------------------------------------------------------
  // What the loader records

  /** A line is a fact exactly when its stripped text is laid out as the pattern describes. */
  lemma ClassifyMatched(raw: string, f: Fact)
    ensures Classify(raw) == Matched(f) <==> ValidFact(f) && Renders(Strip(raw), f)
  {
    StrippedMatched(Strip(raw), f);
  }

  lemma StrippedMatched(line: string, f: Fact)
    ensures ClassifyStripped(line) == Matched(f) <==> ValidFact(f) && Renders(line, f)
  {
    MatchFactIff(line, f);
    if ValidFact(f) && Renders(line, f) {
      var sp :| WellSpaced(f, sp) && Layout(f, sp) == line;
      assert line[0] == '(';
    }
  }

  /** Blank lines, comments, unmatched lines and two-identifier facts leave the store alone. */
  lemma IgnoredLine(st: Store, raw: string)
    requires !(Classify(raw).Matched? && Classify(raw).fact.obj.Some?)
    ensures Step(st, raw) == st
  {
  }

  /** Reading one more line is one more Step: Load is the fold of Step over the lines. */
  lemma LoadStep(lines: seq<string>, raw: string)
    ensures Load(lines + [raw]) == Step(Load(lines), raw)
  {
    var ks := Kinds(lines + [raw]);
    assert ks[..|lines|] == Kinds(lines);
  }

  lemma LoadKindsPrefix(ks: seq<LineKind>, i: nat)
    requires i < |ks|
    ensures LoadKinds(ks[..i + 1]) == Apply(LoadKinds(ks[..i]), ks[i])
  {
    assert ks[..i + 1][..i] == ks[..i];
  }

  lemma {:induction false} KindsEdges(ks: seq<LineKind>, r: string, x: string, y: string)
    ensures Holds(LoadKinds(ks).graph, r, x, y) <==> r in RelationSet() && Matched(Fact(r, x, Some(y))) in ks
  {
    if |ks| > 0 {
      var n := |ks| - 1;
      KindsEdges(ks[..n], r, x, y);
      ApplyEdges(LoadKinds(ks[..n]), ks[n], r, x, y);
      InLast(ks, Matched(Fact(r, x, Some(y))));
    }
  }

  lemma {:induction false} KindsAttributes(ks: seq<LineKind>, t: string, x: string, v: string)
    ensures Holds(LoadKinds(ks).attributes, t, x, v) <==> t !in RelationSet() && Matched(Fact(t, x, Some(v))) in ks
  {
    if |ks| > 0 {
      var n := |ks| - 1;
      KindsAttributes(ks[..n], t, x, v);
      ApplyAttributes(LoadKinds(ks[..n]), ks[n], t, x, v);
      InLast(ks, Matched(Fact(t, x, Some(v))));
    }
  }

  /** One line adds an edge exactly when it is a three-identifier relation fact. */
  lemma ApplyEdges(st: Store, k: LineKind, r: string, x: string, y: string)
    ensures Holds(Apply(st, k).graph, r, x, y) <==>
      Holds(st.graph, r, x, y) || (r in RelationSet() && k == Matched(Fact(r, x, Some(y))))
  {
  }

  /** One line adds a value exactly when it is a three-identifier non-relation fact. */
  lemma ApplyAttributes(st: Store, k: LineKind, t: string, x: string, v: string)
    ensures Holds(Apply(st, k).attributes, t, x, v) <==>
      Holds(st.attributes, t, x, v) || (t !in RelationSet() && k == Matched(Fact(t, x, Some(v))))
  {
  }

  lemma InLast(ks: seq<LineKind>, k: LineKind)
    requires |ks| > 0
    ensures k in ks <==> k in ks[..|ks| - 1] || ks[|ks| - 1] == k
  {
    assert ks == ks[..|ks| - 1] + [ks[|ks| - 1]];
  }

  lemma KindsIn(lines: seq<string>, k: LineKind)
    ensures k in Kinds(lines) <==> exists l :: l in lines && Classify(l) == k
  {
    if k in Kinds(lines) {
      KindsInLine(lines, k);
    }
    if exists l :: l in lines && Classify(l) == k {
      var l :| l in lines && Classify(l) == k;
      LineInKinds(lines, l);
    }
  }

  lemma KindsInLine(lines: seq<string>, k: LineKind)
    requires k in Kinds(lines)
    ensures exists l :: l in lines && Classify(l) == k
  {
    var ks := Kinds(lines);
    var i :| 0 <= i < |ks| && ks[i] == k;
    assert lines[i] in lines;
  }

  lemma LineInKinds(lines: seq<string>, l: string)
    requires l in lines
    ensures Classify(l) in Kinds(lines)
  {
    var i :| 0 <= i < |lines| && lines[i] == l;
    assert Kinds(lines)[i] == Classify(l);
  }

  /** The edges are exactly the three-identifier relation facts of the file. */
  lemma LoadEdges(lines: seq<string>, r: string, x: string, y: string)
    ensures Holds(Load(lines).graph, r, x, y) <==>
      r in RelationSet() && exists l :: l in lines && Classify(l) == Matched(Fact(r, x, Some(y)))
  {
    KindsEdges(Kinds(lines), r, x, y);
    KindsIn(lines, Matched(Fact(r, x, Some(y))));
  }

  /** The attribute values are exactly the three-identifier non-relation facts of the file. */
  lemma LoadAttributes(lines: seq<string>, t: string, x: string, v: string)
    ensures Holds(Load(lines).attributes, t, x, v) <==>
      t !in RelationSet() && exists l :: l in lines && Classify(l) == Matched(Fact(t, x, Some(v)))
  {
    KindsAttributes(Kinds(lines), t, x, v);
    KindsIn(lines, Matched(Fact(t, x, Some(v))));
  }

  /** Two tidy tables with the same keys and the same recorded values are equal. */
  lemma TableExt(t1: Table, t2: Table)
    requires Tidy(t1) && Tidy(t2) && t1.Keys == t2.Keys
    requires forall k, x, v :: Holds(t1, k, x, v) <==> Holds(t2, k, x, v)
    ensures t1 == t2
  {
    forall k | k in t1
      ensures t1[k] == t2[k]
    {
      forall x | x in t1[k]
        ensures x in t2[k] && t1[k][x] == t2[k][x]
      {
        var v :| v in t1[k][x];
        assert Holds(t1, k, x, v);
        forall v' ensures v' in t1[k][x] <==> v' in t2[k][x] {
          assert Holds(t1, k, x, v') <==> Holds(t2, k, x, v');
        }
      }
      forall x | x in t2[k]
        ensures x in t1[k]
      {
        var v :| v in t2[k][x];
        assert Holds(t2, k, x, v);
      }
    }
  }

  /** The keys of a compact table are those holding a value. */
  lemma CompactKeys(t: Table, k: string)
    requires Compact(t)
    ensures k in t <==> exists x, v :: Holds(t, k, x, v)
  {
    if k in t {
      var x :| x in t[k];
      var v :| v in t[k][x];
      assert Holds(t, k, x, v);
    }
  }

  /** Two compact tables with the same recorded values are equal. */
  lemma CompactExt(t1: Table, t2: Table)
    requires Compact(t1) && Compact(t2)
    requires forall k, x, v :: Holds(t1, k, x, v) <==> Holds(t2, k, x, v)
    ensures t1 == t2
  {
    forall k
      ensures k in t1 <==> k in t2
    {
      CompactKeys(t1, k);
      CompactKeys(t2, k);
    }
    TableExt(t1, t2);
  }

  /**
   * The store depends on the set of lines only: reordering the file or
   * repeating a line changes nothing.
   */
  lemma LoadOrderIndependent(a: seq<string>, b: seq<string>)
    requires forall l :: l in a <==> l in b
    ensures Load(a) == Load(b)
  {
    var sa, sb := Load(a), Load(b);
    forall r, x, y
      ensures Holds(sa.graph, r, x, y) <==> Holds(sb.graph, r, x, y)
    {
      LoadEdges(a, r, x, y);
      LoadEdges(b, r, x, y);
    }
    TableExt(sa.graph, sb.graph);
    forall t, x, v
      ensures Holds(sa.attributes, t, x, v) <==> Holds(sb.attributes, t, x, v)
    {
      LoadAttributes(a, t, x, v);
      LoadAttributes(b, t, x, v);
    }
    CompactExt(sa.attributes, sb.attributes);
  }

  // ---------------------------------------------------------------------------
  // Lines of the sample file

  /** A line that needs no stripping and holds a character outside the pattern's alphabet is not a fact. */
  lemma ForeignLineUnmatched(raw: string, i: nat)
    requires i < |raw| && !FactChar(raw[i])
    requires raw[0] == '(' && !IsSpace(raw[|raw| - 1])
    ensures Classify(raw) == Unmatched
  {
    StripUnpadded(raw);
    ForeignCharUnmatched(raw, i);
  }

  /** A digit is not an identifier character, so a numeric value is not a fact. */
  lemma NumericValueIgnored()
    ensures Classify("(Age Alice 30)") == Unmatched
  {
    ForeignLineUnmatched("(Age Alice 30)", 11);
  }

  /** A fact laid out with nothing after its closing parenthesis is read back as that fact. */
  lemma LaidOutLineMatched(f: Fact, sp: Spacing)
    requires ValidFact(f) && WellSpaced(f, sp) && sp.after == []
    ensures Classify(Layout(f, sp)) == Matched(f)
  {
    var line := Layout(f, sp);
    LayoutEnds(f, sp);
    StripUnpadded(line);
    LaidOutStripped(f, sp);
  }

  lemma LaidOutStripped(f: Fact, sp: Spacing)
    requires ValidFact(f) && WellSpaced(f, sp)
    ensures ClassifyStripped(Layout(f, sp)) == Matched(f)
  {
    MatchFactComplete(f, sp);
  }

  /** A line of the sample file becomes an edge. */
  lemma FriendLineIsEdge()
    ensures Classify("(Friend Alice Bob)") == Matched(Fact("Friend", "Alice", Some("Bob")))
  {
    var f := Fact("Friend", "Alice", Some("Bob"));
    var sp := Spacing("", " ", " ", "", "");
    assert Layout(f, sp) == "(Friend Alice Bob)";
    LaidOutLineMatched(f, sp);
  }
}
