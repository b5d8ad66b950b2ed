/** `extract_semantic_triplets` of backend/app.py: one pass over the tokens in
    document order, appending triples to a list that is de-duplicated at the end.
    Each branch of the rule chain is its own method, proved against the
    specification function of `Rules` that describes what it appends. */
module Extractor {
  import opened Parse
  import opened Rules

  /** The emit loop of rules 1 and 2: appends one triple per object, in order,
      all sharing `subject` and `relation`. */
  method EmitAll(subject: string, relation: string, objects: seq<string>) returns (emitted: seq<Triple>)
    ensures emitted == Emit(subject, relation, objects)
  {
    emitted := [];
    var m := 0;
    while m < |objects|
      invariant 0 <= m <= |objects|
      invariant emitted == Emit(subject, relation, objects[..m])
    {
      assert objects[..m + 1][..m] == objects[..m];
      emitted := emitted + [Triple(subject, relation, objects[m])];
      m := m + 1;
    }
    assert objects[..m] == objects;
  }

  /** The texts of the children of `c` whose label passes the object test, in child order. */
  method ObjectChildren(doc: seq<Token>, c: nat) returns (found: seq<string>)
    requires c < |doc|
    ensures found == ObjectTexts(doc, Children(doc, c))
  {
    var grandchildren := Children(doc, c);
    found := [];
    var m := 0;
    while m < |grandchildren|
      invariant 0 <= m <= |grandchildren|
      invariant found == ObjectTexts(doc, grandchildren[..m])
    {
      var grandchild := grandchildren[m];
      assert grandchildren[..m + 1][..m] == grandchildren[..m];
      if IsObjectDep(doc[grandchild].dep) {
        found := found + [doc[grandchild].text];
      }
      m := m + 1;
    }
    assert grandchildren[..m] == grandchildren;
  }

  /** One step of rule 1: visiting the sibling `c` of the subject. A VERB sibling
      adds its object children to the list and emits its lemma with every object
      collected so far (when the subject, the lemma and the list are non-empty). */
  method VisitSibling(doc: seq<Token>, subject: string, c: nat, objects: seq<string>)
    returns (emitted: seq<Triple>, collected: seq<string>)
    requires c < |doc|
    ensures collected == Collect(VisitOf(doc, c), objects)
    ensures emitted == EmitAt(subject, VisitOf(doc, c), collected)
  {
    emitted, collected := [], objects;
    if doc[c].pos == "VERB" {
      var relation := doc[c].baseForm;
      var found := ObjectChildren(doc, c);
      collected := objects + found;
      if subject != "" && relation != "" && collected != [] {
        emitted := EmitAll(subject, relation, collected);
      }
    }
  }

  /** Rule 1, for a token whose label contains "subj": walks the children of the
      token's head, keeping one object list for the whole walk. */
  method SubjectRule(doc: seq<Token>, i: nat) returns (emitted: seq<Triple>)
    requires WellFormed(doc) && i < |doc|
    ensures emitted == SubjectTriples(doc, i)
  {
    var subject := doc[i].text;
    var objects: seq<string> := [];
    var siblings := Children(doc, doc[i].head);
    ghost var vs := Visits(doc, siblings);
    emitted := [];
    var k := 0;
    while k < |siblings|
      invariant 0 <= k <= |siblings|
      invariant objects == ObjectsAfter(vs, k)
      invariant emitted == SubjectPrefix(subject, vs, k)
    {
      SubjectStep(subject, vs, k);
      var here;
      here, objects := VisitSibling(doc, subject, siblings[k], objects);
      emitted := emitted + here;
      k := k + 1;
    }
  }

  /** Rule 2, for a VERB token: the last "subj" child is the subject, every
      other child whose label passes the object test is an object. */
  method VerbRule(doc: seq<Token>, i: nat) returns (emitted: seq<Triple>)
    requires WellFormed(doc) && i < |doc|
    ensures emitted == VerbTriples(doc, i)
  {
    var relation := doc[i].baseForm;
    var subject := "";
    var subjectFound := false;
    var objects: seq<string> := [];
    var children := Children(doc, i);
    var m := 0;
    while m < |children|
      invariant 0 <= m <= |children|
      invariant subjectFound == LastSubject(doc, children[..m]).Some?
      invariant subjectFound ==> subject == LastSubject(doc, children[..m]).value
      invariant objects == VerbObjectTexts(doc, children[..m])
    {
      var child := children[m];
      assert children[..m + 1][..m] == children[..m];
      if IsSubjectDep(doc[child].dep) {
        subject := doc[child].text;
        subjectFound := true;
      } else if IsObjectDep(doc[child].dep) {
        objects := objects + [doc[child].text];
      }
      m := m + 1;
    }
    assert children[..m] == children;
    emitted := [];
    if subjectFound && relation != "" && objects != [] {
      emitted := EmitAll(subject, relation, objects);
    }
  }

  /** Rule 4, for a token labelled "prep": one triple per nominal child. */
  method PrepositionRule(doc: seq<Token>, i: nat) returns (emitted: seq<Triple>)
    requires WellFormed(doc) && i < |doc|
    ensures emitted == PrepositionTriples(doc, i)
  {
    var token := doc[i];
    var head := doc[token.head];
    var children := Children(doc, i);
    emitted := [];
    var m := 0;
    while m < |children|
      invariant 0 <= m <= |children|
      invariant emitted == PrepositionWalk(doc, head.text, token.baseForm, children[..m])
    {
      var child := children[m];
      assert children[..m + 1][..m] == children[..m];
      if IsNominal(doc[child].pos) {
        emitted := emitted + [Triple(head.text, token.baseForm, doc[child].text)];
      }
      m := m + 1;
    }
    assert children[..m] == children;
  }

  /** Visits token `i`: the first rule whose test it passes gives the triples appended for it. */
  method VisitToken(doc: seq<Token>, i: nat) returns (emitted: seq<Triple>)
    requires WellFormed(doc) && i < |doc|
    ensures emitted == TokenTriples(doc, i)
  {
    var token := doc[i];
    emitted := [];
    if IsSubjectDep(token.dep) {
      emitted := SubjectRule(doc, i);
    } else if token.pos == "VERB" {
      emitted := VerbRule(doc, i);
    } else if token.pos == "ADJ" {
      var target := doc[token.head];
      if IsNominal(target.pos) {
        emitted := [Triple(target.text, "is", token.text)];
      }
    } else if token.dep == "prep" {
      emitted := PrepositionRule(doc, i);
    }
  }

  /** The whole extractor: every token in document order goes through the first
      rule that matches it, then the list is de-duplicated. The result holds each
      appended triple exactly once; its order is not promised. */
  method ExtractSemanticTriplets(doc: seq<Token>) returns (triplets: seq<Triple>)
    requires WellFormed(doc)
    ensures NoDuplicates(triplets)
    ensures forall t :: t in triplets <==> t in AllTriples(doc)
    ensures |doc| == 0 ==> triplets == []
  {
    var appended: seq<Triple> := [];
    var i := 0;
    while i < |doc|
      invariant 0 <= i <= |doc|
      invariant appended == Appended(doc, i)
    {
      AppendedStep(doc, i);
      var emitted := VisitToken(doc, i);
      appended := appended + emitted;
      i := i + 1;
    }
    triplets := Dedup(appended);
    DedupSpec(appended);
  }
}
