/**
 * The fact line format `DATA_PAT`:
 *   `^\(\s*([A-Za-z_]+)\s+([A-Za-z_]+)(?:\s+([A-Za-z_]+))?\s*\)\s*$`
 *
 * MatchFact is a deterministic tokenizer standing in for the regular
 * expression; MatchFactIff proves that it accepts exactly the lines laid out
 * as the pattern describes and that its groups are the identifiers of the
 * layout.  Whitespace (`\s`) is Python's Unicode whitespace, identifiers are
 * runs of ASCII letters and `_`.
 */
module Facts {
  import opened Wrappers
  import opened Text

  /** A matched line; `obj` is the optional third group of the pattern. */
  datatype Fact = Fact(pred: string, subj: string, obj: Option<string>)

  // ---------------------------------------------------------------------------
  // Tokenizer standing in for the regular expression

  /** Length of the run of identifier characters at the front of `s`. */
  function IdentRun(s: string): (n: nat)
    ensures n <= |s| && forall i :: 0 <= i < n ==> IsIdentChar(s[i])
    ensures n < |s| ==> !IsIdentChar(s[n])
  {
    if |s| == 0 || !IsIdentChar(s[0]) then 0 else 1 + IdentRun(s[1..])
  }

  /** `\s*\)\s*$`: optional whitespace, the closing parenthesis, optional whitespace. */
  predicate Closes(s: string) {
    var w := LeadingSpace(s);
    w < |s| && s[w] == ')' && AllSpace(s[w + 1..])
  }

  /**
   * What follows the second identifier: `(?:\s+([A-Za-z_]+))?\s*\)\s*$`.
   * `Some(Some(b))` with a third identifier `b`, `Some(None)` without one.
   */
  function MatchTail(s: string): Option<Option<string>> {
    var t := s[LeadingSpace(s)..];
    var n := IdentRun(t);
    if n > 0 then
      if Closes(t[n..]) then Some(Some(t[..n])) else None
    else if Closes(s) then Some(None) else None
  }

  /** `^\(\s*([A-Za-z_]+)\s+([A-Za-z_]+)(?:\s+([A-Za-z_]+))?\s*\)\s*$` */
  function MatchFact(line: string): (r: Option<Fact>)
    ensures r.Some? ==> |line| > 0 && line[0] == '(' && ValidFact(r.value)
  {
    if |line| == 0 || line[0] != '(' then None
    else
      var r := MatchFields(line[1..]);
      assert r.Some? ==> ValidFact(r.value) by {
        if r.Some? {
          var sp := MatchFieldsSound(line[1..], r.value);
        }
      }
      r
  }

  /** After the opening parenthesis: `\s*`, the predicate, then the rest. */
  function MatchFields(s0: string): Option<Fact> {
    var s1 := s0[LeadingSpace(s0)..];
    var n1 := IdentRun(s1);
    if n1 == 0 then None
    else
      match MatchSubject(s1[n1..])
      case None => None
      case Some(so) => Some(Fact(s1[..n1], so.0, so.1))
  }

  /** After the predicate: `\s+`, the subject, then the tail. */
  function MatchSubject(s2: string): Option<(string, Option<string>)> {
    var w := LeadingSpace(s2);
    if w == 0 then None
    else
      var s3 := s2[w..];
      var n2 := IdentRun(s3);
      if n2 == 0 then None
      else
        match MatchTail(s3[n2..])
        case None => None
        case Some(obj) => Some((s3[..n2], obj))
  }

  // ---------------------------------------------------------------------------
  // The language of the pattern, written out as a layout of its pieces

  predicate IsIdent(s: string) {
    |s| > 0 && forall i :: 0 <= i < |s| ==> IsIdentChar(s[i])
  }

  predicate ValidFact(f: Fact) {
    IsIdent(f.pred) && IsIdent(f.subj) && (f.obj.Some? ==> IsIdent(f.obj.value))
  }

  /** The whitespace runs around the pieces of a fact line. */
  datatype Spacing = Spacing(lead: string, mid: string, before3: string, trail: string, after: string)

  predicate WellSpaced(f: Fact, sp: Spacing) {
    && AllSpace(sp.lead) && AllSpace(sp.mid) && AllSpace(sp.before3) && AllSpace(sp.trail) && AllSpace(sp.after)
    && |sp.mid| > 0
    && (if f.obj.Some? then |sp.before3| > 0 else sp.before3 == [])
  }

  /** `(`, lead, predicate, mid, subject, then the tail. */
  function Layout(f: Fact, sp: Spacing): string {
    "(" + (sp.lead + (f.pred + (sp.mid + (f.subj + LayoutTail(f, sp)))))
  }

  /** Optional whitespace and third identifier, trail, `)`, after. */
  function LayoutTail(f: Fact, sp: Spacing): string {
    var close := sp.trail + (")" + sp.after);
    if f.obj.Some? then sp.before3 + (f.obj.value + close) else close
  }

  /** A line the pattern matches, with `f` as its groups. */
  ghost predicate Renders(line: string, f: Fact) {
    exists sp :: WellSpaced(f, sp) && Layout(f, sp) == line
  }

  lemma SpaceIsNoIdentChar(c: char)
    requires IsSpace(c)
    ensures !IsIdentChar(c) && c != ')'
  {
  }

  lemma IdentCharIsNoSpace(c: char)
    requires IsIdentChar(c)
    ensures !IsSpace(c)
  {
  }

  lemma LeadingSpaceOf(w: string, r: string)
    requires AllSpace(w) && (|r| > 0 ==> !IsSpace(r[0]))
    ensures LeadingSpace(w + r) == |w| && (w + r)[|w|..] == r
  {
  }

  lemma IdentRunOf(p: string, r: string)
    requires IsIdent(p) && (|r| > 0 ==> !IsIdentChar(r[0]))
    ensures IdentRun(p + r) == |p| && (p + r)[..|p|] == p && (p + r)[|p|..] == r
  {
  }

  lemma ClosesOf(trail: string, after: string)
    requires AllSpace(trail) && AllSpace(after)
    ensures Closes(trail + (")" + after))
  {
    var s := trail + (")" + after);
    LeadingSpaceOf(trail, ")" + after);
    assert s[|trail| + 1..] == after;
  }

  lemma MatchTailOf(f: Fact, sp: Spacing)
    requires ValidFact(f) && WellSpaced(f, sp)
    ensures MatchTail(LayoutTail(f, sp)) == Some(f.obj)
  {
    var close := sp.trail + (")" + sp.after);
    ClosesOf(sp.trail, sp.after);
    var c0 := close[0];
    assert c0 == if |sp.trail| > 0 then sp.trail[0] else ')';
    assert !IsSpace(c0) ==> c0 == ')';
    assert !IsIdentChar(c0) by {
      if |sp.trail| > 0 { SpaceIsNoIdentChar(c0); }
    }
    if f.obj.Some? {
      var b := f.obj.value;
      IdentCharIsNoSpace(b[0]);
      LeadingSpaceOf(sp.before3, b + close);
      IdentRunOf(b, close);
    } else {
      if |sp.trail| == 0 {
        LeadingSpaceOf([], close);
      } else {
        SpaceIsNoIdentChar(sp.trail[0]);
        var w := LeadingSpace(close);
        assert w > 0;
      }
    }
  }

  lemma MatchSubjectOf(f: Fact, sp: Spacing)
    requires ValidFact(f) && WellSpaced(f, sp)
    ensures MatchSubject(sp.mid + (f.subj + LayoutTail(f, sp))) == Some((f.subj, f.obj))
  {
    var tail := LayoutTail(f, sp);
    MatchTailOf(f, sp);
    var s3 := f.subj + tail;
    assert |tail| > 0 ==> !IsIdentChar(tail[0]) by {
      if f.obj.Some? {
        SpaceIsNoIdentChar(sp.before3[0]);
      } else if |sp.trail| > 0 {
        SpaceIsNoIdentChar(sp.trail[0]);
      }
    }
    IdentRunOf(f.subj, tail);
    IdentCharIsNoSpace(f.subj[0]);
    LeadingSpaceOf(sp.mid, s3);
  }

  lemma MatchFieldsOf(f: Fact, sp: Spacing)
    requires ValidFact(f) && WellSpaced(f, sp)
    ensures MatchFields(sp.lead + (f.pred + (sp.mid + (f.subj + LayoutTail(f, sp))))) == Some(f)
  {
    var s2 := sp.mid + (f.subj + LayoutTail(f, sp));
    var s1 := f.pred + s2;
    MatchSubjectOf(f, sp);
    SpaceIsNoIdentChar(sp.mid[0]);
    IdentRunOf(f.pred, s2);
    IdentCharIsNoSpace(f.pred[0]);
    LeadingSpaceOf(sp.lead, s1);
  }

  /** Every line laid out as the pattern describes is matched, with exactly its pieces as groups. */
  lemma MatchFactComplete(f: Fact, sp: Spacing)
    requires ValidFact(f) && WellSpaced(f, sp)
    ensures MatchFact(Layout(f, sp)) == Some(f)
  {
    MatchFieldsOf(f, sp);
    assert Layout(f, sp)[1..] == sp.lead + (f.pred + (sp.mid + (f.subj + LayoutTail(f, sp))));
  }

  /** The identifier run at the front of a string, when there is one, is an identifier. */
  lemma IdentRunIsIdent(s: string)
    requires IdentRun(s) > 0
    ensures IsIdent(s[..IdentRun(s)])
  {
    var n := IdentRun(s);
    forall i | 0 <= i < n
      ensures IsIdentChar(s[..n][i])
    {
      assert s[..n][i] == s[i];
    }
  }

  lemma SplitAt(s: string, k: nat)
    requires k <= |s|
    ensures s == s[..k] + s[k..]
  {
  }

  /** The pieces of a close `\s*\)\s*$`. */
  lemma ClosesSound(u: string) returns (trail: string, after: string)
    requires Closes(u)
    ensures AllSpace(trail) && AllSpace(after) && u == trail + (")" + after)
  {
    var c := LeadingSpace(u);
    trail, after := u[..c], u[c + 1..];
    assert u == u[..c] + u[c..];
    assert u[c..] == [u[c]] + u[c + 1..];
  }

  /** What MatchTail accepts is a laid-out tail; the pieces are returned. */
  lemma MatchTailSound(s: string, obj: Option<string>) returns (before3: string, trail: string, after: string)
    requires MatchTail(s) == Some(obj)
    requires |s| > 0 ==> !IsIdentChar(s[0])
    ensures obj.Some? ==> IsIdent(obj.value)
    ensures WellSpaced(Fact([], [], obj), Spacing([], " ", before3, trail, after))
    ensures LayoutTail(Fact([], [], obj), Spacing([], " ", before3, trail, after)) == s
  {
    if obj.Some? {
      before3, trail, after := MatchTailThird(s, obj.value);
    } else {
      assert Closes(s);
      trail, after := ClosesSound(s);
      before3 := [];
    }
  }

  lemma MatchTailThird(s: string, b: string) returns (before3: string, trail: string, after: string)
    requires MatchTail(s) == Some(Some(b))
    requires |s| > 0 ==> !IsIdentChar(s[0])
    ensures IsIdent(b) && AllSpace(before3) && |before3| > 0 && AllSpace(trail) && AllSpace(after)
    ensures s == before3 + (b + (trail + (")" + after)))
  {
    var k := LeadingSpace(s);
    var t := s[k..];
    var n := IdentRun(t);
    assert n > 0 && Closes(t[n..]) && b == t[..n];
    IdentRunIsIdent(t);
    trail, after := ClosesSound(t[n..]);
    before3 := s[..k];
    assert k > 0;
    assert t == b + t[n..] by { SplitAt(t, n); }
    assert s == before3 + t by { SplitAt(s, k); }
  }

  /** What MatchSubject accepts: spacing, an identifier, a laid-out tail. */
  lemma MatchSubjectSound(s2: string, subj: string, obj: Option<string>)
    returns (mid: string, before3: string, trail: string, after: string)
    requires MatchSubject(s2) == Some((subj, obj))
    ensures IsIdent(subj) && (obj.Some? ==> IsIdent(obj.value))
    ensures WellSpaced(Fact([], subj, obj), Spacing([], mid, before3, trail, after))
    ensures s2 == mid + (subj + LayoutTail(Fact([], subj, obj), Spacing([], mid, before3, trail, after)))
  {
    var w := LeadingSpace(s2);
    var s3 := s2[w..];
    var n2 := IdentRun(s3);
    var rest := s3[n2..];
    assert MatchTail(rest) == Some(obj) && subj == s3[..n2];
    IdentRunIsIdent(s3);
    before3, trail, after := MatchTailSound(rest, obj);
    mid := s2[..w];
    SplitAt(s3, n2);
    SplitAt(s2, w);
  }

  /** The pieces MatchFields cuts off: spacing and the predicate, then what MatchSubject accepts. */
  lemma MatchFieldsSplit(s0: string, f: Fact) returns (lead: string, s2: string)
    requires MatchFields(s0) == Some(f)
    ensures AllSpace(lead) && IsIdent(f.pred) && MatchSubject(s2) == Some((f.subj, f.obj))
    ensures s0 == lead + (f.pred + s2)
  {
    var l0 := LeadingSpace(s0);
    var s1 := s0[l0..];
    var n1 := IdentRun(s1);
    lead, s2 := s0[..l0], s1[n1..];
    assert n1 > 0 && MatchSubject(s2) == Some((f.subj, f.obj)) && f.pred == s1[..n1];
    IdentRunIsIdent(s1);
    assert s1 == f.pred + s2 by { SplitAt(s1, n1); }
    assert s0 == lead + s1 by { SplitAt(s0, l0); }
  }

  /** What MatchFields accepts: spacing, an identifier, then what MatchSubject accepts. */
  lemma MatchFieldsSound(s0: string, f: Fact) returns (sp: Spacing)
    requires MatchFields(s0) == Some(f)
    ensures ValidFact(f) && WellSpaced(f, sp)
    ensures s0 == sp.lead + (f.pred + (sp.mid + (f.subj + LayoutTail(f, sp))))
  {
    var lead, s2 := MatchFieldsSplit(s0, f);
    var mid, before3, trail, after := MatchSubjectSound(s2, f.subj, f.obj);
    sp := Spacing(lead, mid, before3, trail, after);
    assert LayoutTail(f, sp) == LayoutTail(Fact([], f.subj, f.obj), Spacing([], mid, before3, trail, after));
  }

  /** What MatchFact accepts is a laid-out fact line; the spacing is returned. */
  lemma MatchFactSound(line: string) returns (sp: Spacing)
    requires MatchFact(line).Some?
    ensures ValidFact(MatchFact(line).value)
    ensures WellSpaced(MatchFact(line).value, sp) && Layout(MatchFact(line).value, sp) == line
  {
    var f := MatchFact(line).value;
    assert |line| > 0 && line[0] == '(' && MatchFields(line[1..]) == Some(f);
    sp := MatchFieldsSound(line[1..], f);
    OpenedLayout(line, f, sp);
  }

  lemma OpenedLayout(line: string, f: Fact, sp: Spacing)
    requires |line| > 0 && line[0] == '('
    requires line[1..] == sp.lead + (f.pred + (sp.mid + (f.subj + LayoutTail(f, sp))))
    ensures Layout(f, sp) == line
  {
    assert [line[0]] + line[1..] == line;
  }

  /** A fact line opens with `(` and, with nothing after it, ends with `)`. */
  lemma LayoutEnds(f: Fact, sp: Spacing)
    requires sp.after == []
    ensures Layout(f, sp)[0] == '(' && Layout(f, sp)[|Layout(f, sp)| - 1] == ')'
  {
    var close := sp.trail + (")" + sp.after);
    LastOf(sp.trail, ")" + sp.after);
    var tail := LayoutTail(f, sp);
    if f.obj.Some? {
      LastOf(f.obj.value, close);
      LastOf(sp.before3, f.obj.value + close);
    }
    LastOf(f.subj, tail);
    LastOf(sp.mid, f.subj + tail);
    LastOf(f.pred, sp.mid + (f.subj + tail));
    LastOf(sp.lead, f.pred + (sp.mid + (f.subj + tail)));
    LastOf("(", sp.lead + (f.pred + (sp.mid + (f.subj + tail))));
  }

  lemma LastOf(a: string, b: string)
    requires |b| > 0
    ensures (a + b)[|a + b| - 1] == b[|b| - 1]
  {
  }

  /** The characters a fact line can hold: parentheses, whitespace, identifier characters. */
  predicate FactChar(c: char) {
    c == '(' || c == ')' || IsSpace(c) || IsIdentChar(c)
  }

  predicate FactText(s: string) {
    forall i :: 0 <= i < |s| ==> FactChar(s[i])
  }

  lemma FactTextConcat(a: string, b: string)
    requires FactText(a) && FactText(b)
    ensures FactText(a + b)
  {
    forall i | 0 <= i < |a + b|
      ensures FactChar((a + b)[i])
    {
      if i >= |a| {
        assert (a + b)[i] == b[i - |a|];
      }
    }
  }

  lemma LayoutFactText(f: Fact, sp: Spacing)
    requires ValidFact(f) && WellSpaced(f, sp)
    ensures FactText(Layout(f, sp))
  {
    FactTextConcat(")", sp.after);
    FactTextConcat(sp.trail, ")" + sp.after);
    var close := sp.trail + (")" + sp.after);
    if f.obj.Some? {
      FactTextConcat(f.obj.value, close);
      FactTextConcat(sp.before3, f.obj.value + close);
    }
    var tail := LayoutTail(f, sp);
    FactTextConcat(f.subj, tail);
    FactTextConcat(sp.mid, f.subj + tail);
    FactTextConcat(f.pred, sp.mid + (f.subj + tail));
    FactTextConcat(sp.lead, f.pred + (sp.mid + (f.subj + tail)));
    FactTextConcat("(", sp.lead + (f.pred + (sp.mid + (f.subj + tail))));
  }

  /** A matched line holds no character outside the pattern's alphabet (no digit, for one). */
  lemma MatchFactAlphabet(line: string)
    requires MatchFact(line).Some?
    ensures FactText(line)
  {
    var sp := MatchFactSound(line);
    LayoutFactText(MatchFact(line).value, sp);
  }

  /** In particular a line holding a digit is not matched. */
  lemma ForeignCharUnmatched(line: string, i: nat)
    requires i < |line| && !FactChar(line[i])
    ensures MatchFact(line) == None
  {
    if MatchFact(line).Some? {
      MatchFactAlphabet(line);
      assert false;
    }
  }

  /**
   * The tokenizer accepts exactly the lines of the pattern's language, and its
   * groups are the identifiers the line was laid out with.
   */
  lemma MatchFactIff(line: string, f: Fact)
    ensures MatchFact(line) == Some(f) <==> ValidFact(f) && Renders(line, f)
  {
    if MatchFact(line) == Some(f) {
      var sp := MatchFactSound(line);
    }
    if ValidFact(f) && Renders(line, f) {
      var sp :| WellSpaced(f, sp) && Layout(f, sp) == line;
      MatchFactComplete(f, sp);
    }
  }
}
