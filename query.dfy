/**
 * The entry point `find_by_json`, from a decoded query record to the sorted
 * answer, and the relation selector normalisation `_normalize_relation_list`.
 *
 * A field that may be missing from the JSON object is an `Option`; `None`
 * stands for a missing key.
 */
module Query {
  import opened Wrappers
  import opened Text
  import opened Loader
  import opened Traversal
  import opened Ranking

  /** The `relation` field: JSON null, one string, or a list of strings. */
  datatype Selector = Null | Name(text: string) | Names(items: seq<string>)

  /**
   * `_normalize_relation_list`: the relations a selector asks for.  All five
   * come back exactly for null, for "any" in any letter case, or for a list
   * that is already the five; a single other name is taken as it is,
   * unvalidated, and a list is passed on unchanged.
   */
  function NormalizeRelationList(relation: Selector): (r: seq<string>)
    ensures r == Relations <==>
      || relation.Null?
      || (relation.Name? && Lower(relation.text) == "any")
      || (relation.Names? && relation.items == Relations)
    ensures relation.Name? && Lower(relation.text) != "any" ==> r == [relation.text]
    ensures relation.Names? ==> r == relation.items
  {
    match relation
    case Null => Relations
    case Name(s) =>
      if Lower(s) == "any" then Relations
      else
        assert |[s]| != |Relations|;
        [s]
    case Names(items) => items
  }

  lemma AnyInCapitals()
    ensures NormalizeRelationList(Name("ANY")) == Relations
  {
    assert Lower("ANY") == "any";
  }

  /**
   * `value.strip().title()`: the form in which a requested value is compared.
   * It is the stripped value up to letter case, and normalising it again
   * changes nothing: it has nothing left to strip and is already title-cased.
   */
  function NormalizeValue(v: string): (r: string)
    ensures Lower(r) == Lower(Strip(v))
    ensures Strip(r) == r && Title(r) == r
  {
    var s := Strip(v);
    var t := Title(s);
    assert Strip(t) == t by {
      if |t| > 0 {
        TitleKeepsSpace(s, 0);
        TitleKeepsSpace(s, |s| - 1);
      }
      StripUnpadded(t);
    }
    TitleIdempotent(s);
    TitleLower(s);
    t
  }

  /** The requested value is compared without regard to letter case. */
  lemma NormalizeValueIgnoresCase(v: string, w: string)
    requires Lower(Strip(v)) == Lower(Strip(w))
    ensures NormalizeValue(v) == NormalizeValue(w)
  {
    TitleIgnoresCase(Strip(v));
    TitleIgnoresCase(Strip(w));
  }

  /** A request for "doctor" asks for the stored value `Doctor`. */
  lemma DoctorInLowerCase()
    ensures NormalizeValue("doctor") == "Doctor"
  {
    StripUnpadded("doctor");
    TitleOfLowerWord("doctor", "Doctor");
  }

  /** A word of lower-case letters is title-cased by upper-casing its first letter. */
  lemma TitleOfLowerWord(w: string, t: string)
    requires |w| > 0 && forall i :: 0 <= i < |w| ==> 'a' <= w[i] <= 'z'
    requires |t| == |w| && t[0] == ToUpper(w[0]) && t[1..] == w[1..]
    ensures Title(w) == t
  {
    forall i | 0 < i < |w|
      ensures Title(w)[i] == t[i]
    {
      assert t[i] == t[1..][i - 1];
    }
  }

  /** `target_attribute`: its `type` and `value` keys. */
  datatype Target = Target(kind: Option<string>, value: Option<string>)

  /** The decoded query object. */
  datatype Request = Request(subject: Option<string>, relation: Option<Selector>, target: Option<Target>, maxDepth: Option<int>)

  /** The exceptions `find_by_json` raises, in the order it can raise them. */
  datatype QueryError = MissingSubject | MissingTarget | MissingType | MissingValue | DepthBelowOne

  /** The arguments `find_by_json` passes to `_bfs_find`. */
  datatype Plan = Plan(subject: string, relations: seq<string>, attrType: string, attrValue: string, maxDepth: int)

  /** Field extraction, defaults, normalisation and the depth guard of `find_by_json`. */
  function Prepare(req: Request): (r: Result<Plan, QueryError>)
    ensures r.Success? <==>
      && req.subject.Some? && req.target.Some?
      && req.target.value.kind.Some? && req.target.value.value.Some?
      && (req.maxDepth.None? || req.maxDepth.value >= 1)
    ensures r == Failure(MissingSubject) <==> req.subject.None?
    ensures r == Failure(MissingTarget) <==> req.subject.Some? && req.target.None?
    ensures r == Failure(MissingType) <==> req.subject.Some? && req.target.Some? && req.target.value.kind.None?
    ensures r == Failure(MissingValue) <==>
      req.subject.Some? && req.target.Some? && req.target.value.kind.Some? && req.target.value.value.None?
    ensures r == Failure(DepthBelowOne) <==>
      && req.subject.Some? && req.target.Some? && req.target.value.kind.Some? && req.target.value.value.Some?
      && req.maxDepth.Some? && req.maxDepth.value < 1
    ensures r.Success? ==>
      && r.value.subject == req.subject.value
      && r.value.attrType == req.target.value.kind.value
      && r.value.attrValue == NormalizeValue(req.target.value.value.value)
    ensures r.Success? ==> r.value.maxDepth >= 1
    ensures r.Success? ==> r.value.maxDepth == if req.maxDepth.Some? then req.maxDepth.value else 1
    ensures r.Success? ==> r.value.relations == if req.relation.Some? then NormalizeRelationList(req.relation.value) else Relations
  {
    if req.subject.None? then Failure(MissingSubject)
    else if req.target.None? then Failure(MissingTarget)
    else if req.target.value.kind.None? then Failure(MissingType)
    else if req.target.value.value.None? then Failure(MissingValue)
    else
      var depth := if req.maxDepth.Some? then req.maxDepth.value else 1;
      if depth < 1 then Failure(DepthBelowOne)
      else
        var relation := if req.relation.Some? then req.relation.value else Name("any");
        Success(Plan(req.subject.value, NormalizeRelationList(relation), req.target.value.kind.value,
                     NormalizeValue(req.target.value.value.value), depth))
  }

  /**
   * `hits` answers `plan` over `st`: it lists, ordered by `(depth, name)`,
   * exactly the persons the search reaches that hold the requested value,
   * each with its depth.
   */
  ghost predicate Answers(st: Store, plan: Plan, hits: seq<Hit>) {
    && StrictlySorted(hits)
    && forall h :: h in hits <==>
      var found := Search(st.graph, plan.subject, plan.relations, plan.maxDepth);
      h.0 in found && found[h.0] == h.1 && Holds(st.attributes, plan.attrType, h.0, plan.attrValue)
  }

  /** `find_by_json` on a decoded query. */
  method FindByJson(st: Store, req: Request) returns (r: Result<seq<Hit>, QueryError>)
    ensures r.Failure? <==> Prepare(req).Failure?
    ensures r.Failure? ==> r.error == Prepare(req).error
    ensures r.Success? ==> Answers(st, Prepare(req).value, r.value)
    ensures r.Success? ==> forall i, j :: 0 <= i < |r.value| && 0 <= j < |r.value| && r.value[i].0 == r.value[j].0 ==> i == j
  {
    var prepared := Prepare(req);
    if prepared.Failure? {
      return Failure(prepared.error);
    }
    var plan := prepared.value;
    var found := BfsFind(st, plan.subject, plan.relations, plan.attrType, plan.attrValue, plan.maxDepth);
    var hits := SortHits(found);
    return Success(hits);
  }

  /** The answer to a plan is unique. */
  lemma AnswersUnique(st: Store, plan: Plan, a: seq<Hit>, b: seq<Hit>)
    requires Answers(st, plan, a) && Answers(st, plan, b)
    ensures a == b
  {
    SortedUnique(a, b);
  }

  /** Every depth in an answer lies between 1 and the requested `max_depth`. */
  lemma AnswerDepths(st: Store, req: Request, hits: seq<Hit>, h: Hit)
    requires Prepare(req).Success? && Answers(st, Prepare(req).value, hits) && h in hits
    ensures 1 <= h.1 <= Prepare(req).value.maxDepth
  {
    var plan := Prepare(req).value;
    SearchDepthBounds(st.graph, plan.subject, plan.relations, plan.maxDepth, h.0);
  }
}
