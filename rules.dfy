/** The four relation-extraction rules of backend/app.py, as specification
    functions over a parsed document, and what each of them promises. */
module Rules {
  import opened Parse

  /** A relation `(head, relation, tail)`: subject text, predicate, object text. */
  datatype Triple = Triple(head: string, relation: string, tail: string)

  datatype Option<T> = None | Some(value: T)

  /** Which rule a token goes through; the first matching test wins. */
  datatype Rule = SubjectBearing | Verb | Adjective | Preposition | Unmatched

  predicate IsSubjectDep(dep: string) { Contains(dep, "subj") }

  /** The object test as written: `"obj" in d or "pobj" in d`. */
  predicate IsObjectDep(dep: string) { Contains(dep, "obj") || Contains(dep, "pobj") }

  predicate IsNominal(pos: string) { pos == "NOUN" || pos == "PROPN" }

  /** The `if/elif` chain that picks the one rule a token goes through. */
  function Classify(t: Token): Rule
  {
    if IsSubjectDep(t.dep) then SubjectBearing
    else if t.pos == "VERB" then Verb
    else if t.pos == "ADJ" then Adjective
    else if t.dep == "prep" then Preposition
    else Unmatched
  }

  /** One triple per object, in order, all with the same subject and predicate. */
  function Emit(subject: string, relation: string, objects: seq<string>): seq<Triple>
  {
    if objects == [] then []
    else Emit(subject, relation, objects[..|objects| - 1]) + [Triple(subject, relation, objects[|objects| - 1])]
  }

  /** `Emit` pairs the subject and predicate with each object, position by position. */
  lemma {:induction false} EmitSpec(subject: string, relation: string, objects: seq<string>)
    ensures |Emit(subject, relation, objects)| == |objects|
    ensures forall k :: 0 <= k < |objects| ==> Emit(subject, relation, objects)[k] == Triple(subject, relation, objects[k])
  {
    if objects != [] {
      EmitSpec(subject, relation, objects[..|objects| - 1]);
    }
  }

  /** A triple is emitted exactly when it pairs the subject and predicate with one of the objects. */
  lemma {:induction false} EmitMembership(subject: string, relation: string, objects: seq<string>, t: Triple)
    ensures t in Emit(subject, relation, objects) <==> t.head == subject && t.relation == relation && t.tail in objects
  {
    if objects != [] {
      var p := objects[..|objects| - 1];
      EmitMembership(subject, relation, p, t);
      assert objects == p + [objects[|objects| - 1]];
    }
  }

  // ---------------------------------------------------------------------------
  // Rule 1: a token whose label contains "subj"

  /** The texts of the tokens of `cs` whose label passes the object test, in order. */
  function ObjectTexts(doc: seq<Token>, cs: seq<nat>): seq<string>
    requires InDoc(doc, cs)
  {
    if cs == [] then []
    else
      var c := cs[|cs| - 1];
      ObjectTexts(doc, cs[..|cs| - 1]) + (if IsObjectDep(doc[c].dep) then [doc[c].text] else [])
  }

  /** What rule 1 sees of one sibling of the subject: whether it is a VERB, its
      lemma, and the texts of its object-labelled children in child order. */
  datatype Visit = Visit(isVerb: bool, relation: string, found: seq<string>)

  function VisitOf(doc: seq<Token>, c: nat): Visit
    requires c < |doc|
  {
    Visit(doc[c].pos == "VERB", doc[c].baseForm, ObjectTexts(doc, Children(doc, c)))
  }

  /** The visits of the siblings `cs`, in order. */
  function Visits(doc: seq<Token>, cs: seq<nat>): seq<Visit>
    requires InDoc(doc, cs)
  {
    seq(|cs|, k requires 0 <= k < |cs| => VisitOf(doc, cs[k]))
  }

  /** The object list after a visit: a VERB appends the object texts of its own
      children, any other sibling leaves the list alone. */
  function Collect(v: Visit, objects: seq<string>): seq<string>
  {
    if v.isVerb then objects + v.found else objects
  }

  /** What a visit appends once the list is `collected`: a VERB with a non-empty
      lemma pairs it with every collected object, provided the subject and the
      list are non-empty. */
  function EmitAt(subject: string, v: Visit, collected: seq<string>): seq<Triple>
  {
    if v.isVerb && subject != "" && v.relation != "" && collected != [] then Emit(subject, v.relation, collected) else []
  }

  /** Rule 1's object list after the first `k` visits. */
  function ObjectsAfter(vs: seq<Visit>, k: nat): seq<string>
    requires k <= |vs|
  {
    if k == 0 then [] else Collect(vs[k - 1], ObjectsAfter(vs, k - 1))
  }

  /** The triples rule 1 has appended after the first `k` visits. The object list
      is never reset between siblings, so a later VERB is paired with the objects
      found under earlier ones too. */
  function SubjectPrefix(subject: string, vs: seq<Visit>, k: nat): seq<Triple>
    requires k <= |vs|
  {
    if k == 0 then [] else SubjectPrefix(subject, vs, k - 1) + EmitAt(subject, vs[k - 1], ObjectsAfter(vs, k))
  }

  /** Visit `k` extends the object list and the appended triples by one step. */
  lemma SubjectStep(subject: string, vs: seq<Visit>, k: nat)
    requires k < |vs|
    ensures ObjectsAfter(vs, k + 1) == Collect(vs[k], ObjectsAfter(vs, k))
    ensures SubjectPrefix(subject, vs, k + 1) == SubjectPrefix(subject, vs, k) + EmitAt(subject, vs[k], ObjectsAfter(vs, k + 1))
  {
  }

  /** `o` was found under one of the VERBs among the first `n` visits. */
  ghost predicate IsVerbObject(vs: seq<Visit>, n: nat, o: string)
    requires n <= |vs|
  {
    exists k :: 0 <= k < n && vs[k].isVerb && o in vs[k].found
  }

  /** Among the first `n` visits, `o` was found under a VERB that comes at or
      before a VERB whose lemma is `relation`: the order in which rule 1 pairs them. */
  ghost predicate IsPaired(vs: seq<Visit>, n: nat, relation: string, o: string)
    requires n <= |vs|
  {
    exists j, m :: 0 <= j <= m < n && vs[j].isVerb && vs[m].isVerb && vs[m].relation == relation && o in vs[j].found
  }

  /** The triples rule 1 appends for token `i`: its own text as subject, walking
      all the children of its head. */
  function SubjectTriples(doc: seq<Token>, i: nat): seq<Triple>
    requires WellFormed(doc) && i < |doc|
  {
    var vs := Visits(doc, Children(doc, doc[i].head));
    SubjectPrefix(doc[i].text, vs, |vs|)
  }

  // ---------------------------------------------------------------------------
  // Rule 2: a VERB token (whose label does not contain "subj")

  /** The text of the last token of `cs` whose label contains "subj", if any. */
  function LastSubject(doc: seq<Token>, cs: seq<nat>): Option<string>
    requires InDoc(doc, cs)
  {
    if cs == [] then None
    else
      var c := cs[|cs| - 1];
      if IsSubjectDep(doc[c].dep) then Some(doc[c].text)
      else LastSubject(doc, cs[..|cs| - 1])
  }

  /** The texts of the tokens of `cs` counted as objects by rule 2: the object
      test sits in an `elif` after the subject test, so a "subj" label never counts. */
  function VerbObjectTexts(doc: seq<Token>, cs: seq<nat>): seq<string>
    requires InDoc(doc, cs)
  {
    if cs == [] then []
    else
      var c := cs[|cs| - 1];
      VerbObjectTexts(doc, cs[..|cs| - 1])
        + (if !IsSubjectDep(doc[c].dep) && IsObjectDep(doc[c].dep) then [doc[c].text] else [])
  }

  /** The triples rule 2 appends for verb token `i`. */
  function VerbTriples(doc: seq<Token>, i: nat): seq<Triple>
    requires WellFormed(doc) && i < |doc|
  {
    var cs := Children(doc, i);
    var subject := LastSubject(doc, cs);
    var objects := VerbObjectTexts(doc, cs);
    if subject.Some? && doc[i].baseForm != "" && objects != [] then Emit(subject.value, doc[i].baseForm, objects)
    else []
  }

  // ---------------------------------------------------------------------------
  // Rule 3: an ADJ token

  /** The triple rule 3 appends for adjective token `i`, if its head is a noun. */
  function AdjectiveTriples(doc: seq<Token>, i: nat): seq<Triple>
    requires WellFormed(doc) && i < |doc|
  {
    var target := doc[doc[i].head];
    if IsNominal(target.pos) then [Triple(target.text, "is", doc[i].text)] else []
  }

  // ---------------------------------------------------------------------------
  // Rule 4: a token labelled exactly "prep"

  /** One triple `(headText, relation, child text)` per nominal token of `cs`, in order. */
  function PrepositionWalk(doc: seq<Token>, headText: string, relation: string, cs: seq<nat>): seq<Triple>
    requires InDoc(doc, cs)
  {
    if cs == [] then []
    else
      var c := cs[|cs| - 1];
      PrepositionWalk(doc, headText, relation, cs[..|cs| - 1])
        + (if IsNominal(doc[c].pos) then [Triple(headText, relation, doc[c].text)] else [])
  }

  /** The triples rule 4 appends for preposition token `i`. */
  function PrepositionTriples(doc: seq<Token>, i: nat): seq<Triple>
    requires WellFormed(doc) && i < |doc|
  {
    PrepositionWalk(doc, doc[doc[i].head].text, doc[i].baseForm, Children(doc, i))
  }

  // ---------------------------------------------------------------------------
  // The whole walk

  /** The triples appended while visiting token `i`. */
  function TokenTriples(doc: seq<Token>, i: nat): seq<Triple>
    requires WellFormed(doc) && i < |doc|
  {
    match Classify(doc[i])
    case SubjectBearing => SubjectTriples(doc, i)
    case Verb => VerbTriples(doc, i)
    case Adjective => AdjectiveTriples(doc, i)
    case Preposition => PrepositionTriples(doc, i)
    case Unmatched => []
  }

  /** The list of triples after visiting the first `n` tokens in document order. */
  function Appended(doc: seq<Token>, n: nat): seq<Triple>
    requires WellFormed(doc) && n <= |doc|
  {
    if n == 0 then [] else Appended(doc, n - 1) + TokenTriples(doc, n - 1)
  }

  /** Visiting token `n` appends its own triples to the list so far. */
  lemma AppendedStep(doc: seq<Token>, n: nat)
    requires WellFormed(doc) && n < |doc|
    ensures Appended(doc, n + 1) == Appended(doc, n) + TokenTriples(doc, n)
  {
  }

  /** Every triple appended during the walk over the whole document, duplicates included. */
  function AllTriples(doc: seq<Token>): seq<Triple>
    requires WellFormed(doc)
  {
    Appended(doc, |doc|)
  }

  // ---------------------------------------------------------------------------
  // De-duplication: `list(set(triplets))`

  predicate NoDuplicates(s: seq<Triple>)
  {
    forall a, b :: 0 <= a < b < |s| ==> s[a] != s[b]
  }

  /** The elements of `s` once each (here in order of first occurrence). */
  function Dedup(s: seq<Triple>): seq<Triple>
  {
    if s == [] then []
    else
      var p := Dedup(s[..|s| - 1]);
      if s[|s| - 1] in p then p else p + [s[|s| - 1]]
  }

  /** `Dedup` keeps every element of its input exactly once and adds nothing. */
  lemma {:induction false} DedupSpec(s: seq<Triple>)
    ensures NoDuplicates(Dedup(s))
    ensures forall x :: x in Dedup(s) <==> x in s
    ensures |Dedup(s)| <= |s|
  {
    if s != [] {
      var p := s[..|s| - 1];
      DedupSpec(p);
      assert forall x :: x in s <==> x in p || x == s[|s| - 1] by {
        assert s == p + [s[|s| - 1]];
      }
    }
  }
}
