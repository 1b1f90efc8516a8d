/**
 * The example query of the `find_by_json` doc comment (subject Alice, any
 * relation, profession "doctor", `max_depth` 2) over a small store in which
 * Alice is Bob's friend, Bob is Carol's colleague and Carol is a doctor.
 */
module Example {
  import opened Wrappers
  import opened Text
  import opened Facts
  import opened Loader
  import opened Traversal
  import opened Ranking
  import opened Query

  /** `Friend(Alice, Bob)`, `Colleague(Bob, Carol)`, `Profession(Carol, Doctor)`. */
  function SampleStore(): Store {
    Store(
      map["Friend" := map["Alice" := {"Bob"}], "Colleague" := map["Bob" := {"Carol"}],
          "Family" := map[], "Neighbor" := map[], "Classmate" := map[]],
      map["Profession" := map["Carol" := {"Doctor"}]])
  }

  /** The sample file: two relation facts and one attribute fact. */
  function SampleLines(): seq<string> {
    ["(Friend Alice Bob)", "(Colleague Bob Carol)", "(Profession Carol Doctor)"]
  }

  lemma ColleagueLine()
    ensures Classify("(Colleague Bob Carol)") == Matched(Fact("Colleague", "Bob", Some("Carol")))
  {
    var f := Fact("Colleague", "Bob", Some("Carol"));
    var sp := Spacing("", " ", " ", "", "");
    assert Layout(f, sp) == "(Colleague Bob Carol)";
    LaidOutLineMatched(f, sp);
  }

  lemma ProfessionLine()
    ensures Classify("(Profession Carol Doctor)") == Matched(Fact("Profession", "Carol", Some("Doctor")))
  {
    var f := Fact("Profession", "Carol", Some("Doctor"));
    var sp := Spacing("", " ", " ", "", "");
    assert Layout(f, sp) == "(Profession Carol Doctor)";
    LaidOutLineMatched(f, sp);
  }

  /** Three lines read as the three sample facts, in order. */
  predicate Parsed(lines: seq<string>) {
    && |lines| == 3
    && Classify(lines[0]) == Matched(Fact("Friend", "Alice", Some("Bob")))
    && Classify(lines[1]) == Matched(Fact("Colleague", "Bob", Some("Carol")))
    && Classify(lines[2]) == Matched(Fact("Profession", "Carol", Some("Doctor")))
  }

  /** What the loader makes of each line of the sample file. */
  lemma SampleKinds(lines: seq<string>)
    requires lines == SampleLines()
    ensures Parsed(lines)
  {
    FriendLineIsEdge();
    ColleagueLine();
    ProfessionLine();
  }

  lemma ProfessionIsNoRelation()
    ensures "Profession" !in RelationSet()
  {
    assert |"Profession"| == 10;
  }

  lemma SampleRelations()
    ensures "Friend" in RelationSet() && "Colleague" in RelationSet()
  {
    assert Relations[0] == "Friend" && Relations[1] == "Colleague";
  }

  lemma InThree(lines: seq<string>, l: string)
    requires |lines| == 3
    ensures l in lines <==> l == lines[0] || l == lines[1] || l == lines[2]
  {
  }

  /** The edges of the sample store. */
  lemma SampleEdges(st: Store, r: string, x: string, y: string)
    requires st == SampleStore()
    ensures Holds(st.graph, r, x, y) <==> (r, x, y) == ("Friend", "Alice", "Bob") || (r, x, y) == ("Colleague", "Bob", "Carol")
  {
  }

  /** The attribute values of the sample store. */
  lemma SampleValues(st: Store, t: string, x: string, v: string)
    requires st == SampleStore()
    ensures Holds(st.attributes, t, x, v) <==> (t, x, v) == ("Profession", "Carol", "Doctor")
  {
  }

  /** The sample store has the shape of a loaded store. */
  lemma SampleShape(st: Store)
    requires st == SampleStore()
    ensures st.graph.Keys == RelationSet() && Tidy(st.graph) && Compact(st.attributes)
  {
    assert Tidy(st.graph) by {
      forall k, x | k in st.graph && x in st.graph[k]
        ensures st.graph[k][x] != {}
      {
        assert (k, x) == ("Friend", "Alice") || (k, x) == ("Colleague", "Bob");
      }
    }
    assert Compact(st.attributes) by {
      forall k, x | k in st.attributes && x in st.attributes[k]
        ensures st.attributes[k][x] != {}
      {
        assert (k, x) == ("Profession", "Carol");
      }
      forall k | k in st.attributes
        ensures st.attributes[k] != map[]
      {
        assert "Carol" in st.attributes[k];
      }
    }
  }

  lemma LoadedEdges(lines: seq<string>, r: string, x: string, y: string)
    requires Parsed(lines)
    ensures Holds(Load(lines).graph, r, x, y) <==> (r, x, y) == ("Friend", "Alice", "Bob") || (r, x, y) == ("Colleague", "Bob", "Carol")
  {
    if Holds(Load(lines).graph, r, x, y) {
      LoadedEdgeSound(lines, r, x, y);
    }
    LoadedEdgesPresent(lines);
  }

  lemma LoadedEdgeSound(lines: seq<string>, r: string, x: string, y: string)
    requires Parsed(lines) && Holds(Load(lines).graph, r, x, y)
    ensures (r, x, y) == ("Friend", "Alice", "Bob") || (r, x, y) == ("Colleague", "Bob", "Carol")
  {
    LoadEdges(lines, r, x, y);
    var l :| l in lines && Classify(l) == Matched(Fact(r, x, Some(y)));
    EdgeLine(lines, l, r, x, y);
  }

  lemma EdgeLine(lines: seq<string>, l: string, r: string, x: string, y: string)
    requires Parsed(lines) && r in RelationSet() && l in lines && Classify(l) == Matched(Fact(r, x, Some(y)))
    ensures (r, x, y) == ("Friend", "Alice", "Bob") || (r, x, y) == ("Colleague", "Bob", "Carol")
  {
    InThree(lines, l);
    ProfessionIsNoRelation();
  }

  lemma LoadedEdgesPresent(lines: seq<string>)
    requires Parsed(lines)
    ensures Holds(Load(lines).graph, "Friend", "Alice", "Bob") && Holds(Load(lines).graph, "Colleague", "Bob", "Carol")
  {
    assert lines[0] in lines && lines[1] in lines;
    SampleRelations();
    LoadEdges(lines, "Friend", "Alice", "Bob");
    LoadEdges(lines, "Colleague", "Bob", "Carol");
  }

  lemma LoadedValues(lines: seq<string>, t: string, x: string, v: string)
    requires Parsed(lines)
    ensures Holds(Load(lines).attributes, t, x, v) <==> (t, x, v) == ("Profession", "Carol", "Doctor")
  {
    if Holds(Load(lines).attributes, t, x, v) {
      LoadedValueSound(lines, t, x, v);
    }
    LoadedValuePresent(lines);
  }

  lemma LoadedValueSound(lines: seq<string>, t: string, x: string, v: string)
    requires Parsed(lines) && Holds(Load(lines).attributes, t, x, v)
    ensures (t, x, v) == ("Profession", "Carol", "Doctor")
  {
    LoadAttributes(lines, t, x, v);
    var l :| l in lines && Classify(l) == Matched(Fact(t, x, Some(v)));
    ValueLine(lines, l, t, x, v);
  }

  lemma ValueLine(lines: seq<string>, l: string, t: string, x: string, v: string)
    requires Parsed(lines) && t !in RelationSet() && l in lines && Classify(l) == Matched(Fact(t, x, Some(v)))
    ensures (t, x, v) == ("Profession", "Carol", "Doctor")
  {
    SampleRelations();
    InThree(lines, l);
  }

  lemma LoadedValuePresent(lines: seq<string>)
    requires Parsed(lines)
    ensures Holds(Load(lines).attributes, "Profession", "Carol", "Doctor")
  {
    assert lines[2] in lines;
    ProfessionIsNoRelation();
    LoadAttributes(lines, "Profession", "Carol", "Doctor");
  }

  /** The sample store is what `_parse_data_file` builds from the sample file. */
  lemma SampleLoaded(lines: seq<string>)
    requires lines == SampleLines()
    ensures Load(lines) == SampleStore()
  {
    var st := SampleStore();
    SampleKinds(lines);
    SampleShape(st);
    LoadedGraph(lines, st);
    LoadedAttributes(lines, st);
  }

  lemma LoadedGraph(lines: seq<string>, st: Store)
    requires Parsed(lines) && st == SampleStore()
    requires st.graph.Keys == RelationSet() && Tidy(st.graph)
    ensures Load(lines).graph == st.graph
  {
    var g := Load(lines).graph;
    forall r, x, y
      ensures Holds(g, r, x, y) <==> Holds(st.graph, r, x, y)
    {
      LoadedEdges(lines, r, x, y);
      SampleEdges(st, r, x, y);
    }
    TableExt(g, st.graph);
  }

  lemma LoadedAttributes(lines: seq<string>, st: Store)
    requires Parsed(lines) && st == SampleStore()
    requires Compact(st.attributes)
    ensures Load(lines).attributes == st.attributes
  {
    var a := Load(lines).attributes;
    forall t, x, v
      ensures Holds(a, t, x, v) <==> Holds(st.attributes, t, x, v)
    {
      LoadedValues(lines, t, x, v);
      SampleValues(st, t, x, v);
    }
    CompactExt(a, st.attributes);
  }

  function SampleRequest(depth: int): Request {
    Request(Some("Alice"), Some(Name("any")), Some(Target(Some("Profession"), Some("doctor"))), Some(depth))
  }

  /** The plan of the sample query: "doctor" is looked up as `Doctor`, over all five relations. */
  lemma SamplePlan(depth: int)
    requires depth >= 1
    ensures Prepare(SampleRequest(depth)) == Success(Plan("Alice", Relations, "Profession", "Doctor", depth))
  {
    DoctorInLowerCase();
    AnyInLowerCase();
  }

  lemma AnyInLowerCase()
    ensures NormalizeRelationList(Name("any")) == Relations
  {
    assert Lower("any") == "any";
  }

  /** Along the sample graph, Alice reaches only Bob and Bob only Carol. */
  lemma SampleOut(r: string)
    ensures Out(SampleStore().graph, r, "Alice") == if r == "Friend" then {"Bob"} else {}
    ensures Out(SampleStore().graph, r, "Bob") == if r == "Colleague" then {"Carol"} else {}
  {
  }

  /** Alice's only neighbour is Bob, Bob's only neighbour is Carol. */
  lemma SampleNeighbours(sc: Scope)
    requires sc.graph == SampleStore().graph
    requires "Friend" in sc.allowed && "Colleague" in sc.allowed
    ensures Neighbours(sc, "Alice") == {"Bob"}
    ensures Neighbours(sc, "Bob") == {"Carol"}
  {
    forall r
      ensures Out(sc.graph, r, "Alice") == (if r == "Friend" then {"Bob"} else {})
      ensures Out(sc.graph, r, "Bob") == (if r == "Colleague" then {"Carol"} else {})
    {
      SampleOut(r);
    }
    assert "Bob" in Out(sc.graph, "Friend", "Alice");
    assert "Carol" in Out(sc.graph, "Colleague", "Bob");
  }

  /** Bob is one hop from Alice, Carol two. */
  lemma SampleReach(sc: Scope)
    requires sc.graph == SampleStore().graph
    requires "Friend" in sc.allowed && "Colleague" in sc.allowed
    ensures Reach(sc, "Alice", 1) == map["Bob" := 1]
    ensures Reach(sc, "Alice", 2) == map["Bob" := 1, "Carol" := 2]
  {
    SampleNeighbours(sc);
    assert Level(sc, "Alice", 1) == {"Bob"};
    assert Image(sc, {"Bob"}) == {"Carol"} by {
      assert "Carol" in Neighbours(sc, "Bob");
    }
    assert Level(sc, "Alice", 2) == {"Bob", "Carol"};
  }

  /** Over any selection holding Friend and Colleague, Alice finds Bob at depth 1 and Carol at depth 2. */
  lemma SampleSearch(rels: seq<string>, maxDepth: int)
    requires "Friend" in rels && "Colleague" in rels
    ensures maxDepth <= 1 ==> Search(SampleStore().graph, "Alice", rels, maxDepth) == map["Bob" := 1]
    ensures maxDepth == 2 ==> Search(SampleStore().graph, "Alice", rels, maxDepth) == map["Bob" := 1, "Carol" := 2]
  {
    var g := SampleStore().graph;
    var allowed := KnownRelations(g, rels);
    assert "Friend" in allowed && "Colleague" in allowed;
    SampleReach(Scope(g, allowed));
  }

  /** Carol is the one doctor. */
  lemma SampleDoctors(p: string)
    ensures Holds(SampleStore().attributes, "Profession", p, "Doctor") <==> p == "Carol"
  {
  }

  /**
   * What the sample query asks of the sample store: Carol, at depth 2, when
   * two hops are allowed, and no one when only one is.
   */
  lemma SampleAnswer(st: Store, plan: Plan)
    requires st == SampleStore()
    requires plan.subject == "Alice" && "Friend" in plan.relations && "Colleague" in plan.relations
    requires plan.attrType == "Profession" && plan.attrValue == "Doctor" && 1 <= plan.maxDepth <= 2
    ensures Answers(st, plan, if plan.maxDepth == 2 then [("Carol", 2)] else [])
  {
    SampleSearch(plan.relations, plan.maxDepth);
    var found := Search(st.graph, plan.subject, plan.relations, plan.maxDepth);
    var hits: seq<Hit> := if plan.maxDepth == 2 then [("Carol", 2)] else [];
    forall h: Hit
      ensures h in hits <==> h.0 in found && found[h.0] == h.1 && Holds(st.attributes, plan.attrType, h.0, plan.attrValue)
    {
      SampleDoctors(h.0);
    }
  }

  /**
   * The sample file loaded by `_parse_data_file`, then `find_by_json` on the
   * sample query, with `max_depth` 2 and with `max_depth` 1.
   */
  method SampleFind(lines: seq<string>, depth: int) returns (r: Result<seq<Hit>, QueryError>)
    requires lines == SampleLines() && 1 <= depth <= 2
    ensures r == Success(if depth == 2 then [("Carol", 2)] else [])
  {
    var graph, attributes := ParseLines(lines);
    var st := Store(graph, attributes);
    SampleLoaded(lines);
    var req := SampleRequest(depth);
    r := FindByJson(st, req);
    SamplePlan(depth);
    var plan := Prepare(req).value;
    SampleAnswer(st, plan);
    AnswersUnique(st, plan, r.value, if depth == 2 then [("Carol", 2)] else []);
  }
}
