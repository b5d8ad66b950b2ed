/** What the extraction rules promise, proved about the specification functions of `Rules`. */
module RuleProperties {
  import opened Parse
  import opened Rules

  // ---------------------------------------------------------------------------
  // Priority of the rules

  /** Each token goes through exactly the rule `Classify` picks, in the order
      subject label, VERB, ADJ, "prep"; a "subj" label wins whatever the tag. */
  lemma PriorityExclusivity(doc: seq<Token>, i: nat)
    requires WellFormed(doc) && i < |doc|
    ensures IsSubjectDep(doc[i].dep) ==> TokenTriples(doc, i) == SubjectTriples(doc, i)
    ensures !IsSubjectDep(doc[i].dep) && doc[i].pos == "VERB" ==> TokenTriples(doc, i) == VerbTriples(doc, i)
    ensures !IsSubjectDep(doc[i].dep) && doc[i].pos != "VERB" && doc[i].pos == "ADJ" ==>
      TokenTriples(doc, i) == AdjectiveTriples(doc, i)
    ensures !IsSubjectDep(doc[i].dep) && doc[i].pos != "VERB" && doc[i].pos != "ADJ" && doc[i].dep == "prep" ==>
      TokenTriples(doc, i) == PrepositionTriples(doc, i)
    ensures Classify(doc[i]) == Unmatched <==>
      !IsSubjectDep(doc[i].dep) && doc[i].pos != "VERB" && doc[i].pos != "ADJ" && doc[i].dep != "prep"
    ensures Classify(doc[i]) == Unmatched ==> TokenTriples(doc, i) == []
  {
  }

  /** The redundant half of the object test: "pobj" in d adds nothing to "obj" in d. */
  lemma ObjectTestIsObjSubstring(d: string)
    ensures IsObjectDep(d) <==> Contains(d, "obj")
  {
    PobjImpliesObj(d);
  }

  // ---------------------------------------------------------------------------
  // What the collecting functions collect

  /** Rule 1's object list under one VERB holds the text of every object-labelled
      child and nothing else. */
  lemma {:induction false} ObjectTextsSpec(doc: seq<Token>, cs: seq<nat>)
    requires InDoc(doc, cs)
    ensures |ObjectTexts(doc, cs)| <= |cs|
    ensures forall k :: 0 <= k < |cs| && IsObjectDep(doc[cs[k]].dep) ==> doc[cs[k]].text in ObjectTexts(doc, cs)
    ensures forall s :: s in ObjectTexts(doc, cs) ==>
      exists k :: 0 <= k < |cs| && IsObjectDep(doc[cs[k]].dep) && doc[cs[k]].text == s
  {
    if cs != [] {
      var p := cs[..|cs| - 1];
      ObjectTextsSpec(doc, p);
      assert forall k :: 0 <= k < |p| ==> p[k] == cs[k];
    }
  }

  /** Rule 2's subject is the text of the last "subj" child; there is one exactly
      when some child has a "subj" label. */
  lemma {:induction false} LastSubjectSpec(doc: seq<Token>, cs: seq<nat>)
    requires InDoc(doc, cs)
    ensures LastSubject(doc, cs).None? <==> forall k :: 0 <= k < |cs| ==> !IsSubjectDep(doc[cs[k]].dep)
    ensures LastSubject(doc, cs).Some? ==>
      exists k :: 0 <= k < |cs| && IsSubjectDep(doc[cs[k]].dep) && doc[cs[k]].text == LastSubject(doc, cs).value
        && forall k' :: k < k' < |cs| ==> !IsSubjectDep(doc[cs[k']].dep)
  {
    if cs != [] {
      var p := cs[..|cs| - 1];
      LastSubjectSpec(doc, p);
      assert forall k :: 0 <= k < |p| ==> p[k] == cs[k];
    }
  }

  /** Rule 2's objects are the texts of the children that pass the object test
      and do not carry a "subj" label, and nothing else. */
  lemma {:induction false} VerbObjectTextsSpec(doc: seq<Token>, cs: seq<nat>)
    requires InDoc(doc, cs)
    ensures |VerbObjectTexts(doc, cs)| <= |cs|
    ensures forall k :: 0 <= k < |cs| && !IsSubjectDep(doc[cs[k]].dep) && IsObjectDep(doc[cs[k]].dep) ==>
      doc[cs[k]].text in VerbObjectTexts(doc, cs)
    ensures forall s :: s in VerbObjectTexts(doc, cs) ==>
      exists k :: 0 <= k < |cs| && !IsSubjectDep(doc[cs[k]].dep) && IsObjectDep(doc[cs[k]].dep)
        && doc[cs[k]].text == s
  {
    if cs != [] {
      var p := cs[..|cs| - 1];
      VerbObjectTextsSpec(doc, p);
      assert forall k :: 0 <= k < |p| ==> p[k] == cs[k];
    }
  }

  /** Rule 4 emits `(headText, relation, text)` for exactly the nominal children. */
  lemma {:induction false} PrepositionWalkSpec(doc: seq<Token>, headText: string, relation: string, cs: seq<nat>)
    requires InDoc(doc, cs)
    ensures |PrepositionWalk(doc, headText, relation, cs)| <= |cs|
    ensures forall t :: t in PrepositionWalk(doc, headText, relation, cs) ==>
      t.head == headText && t.relation == relation
      && exists k :: 0 <= k < |cs| && IsNominal(doc[cs[k]].pos) && doc[cs[k]].text == t.tail
    ensures forall k :: 0 <= k < |cs| && IsNominal(doc[cs[k]].pos) ==>
      Triple(headText, relation, doc[cs[k]].text) in PrepositionWalk(doc, headText, relation, cs)
  {
    if cs != [] {
      var p := cs[..|cs| - 1];
      PrepositionWalkSpec(doc, headText, relation, p);
      assert forall k :: 0 <= k < |p| ==> p[k] == cs[k];
    }
  }

  // ---------------------------------------------------------------------------
  // Rule 1

  /** A VERB object among the first `n` visits is one among any longer prefix. */
  lemma VerbObjectWiden(vs: seq<Visit>, n: nat, n': nat, o: string)
    requires n <= n' <= |vs| && IsVerbObject(vs, n, o)
    ensures IsVerbObject(vs, n', o)
  {
    var j :| 0 <= j < n && vs[j].isVerb && o in vs[j].found;
    assert j < n';
  }

  /** A pairing among the first `n` visits is one among any longer prefix. */
  lemma PairedWiden(vs: seq<Visit>, n: nat, n': nat, relation: string, o: string)
    requires n <= n' <= |vs| && IsPaired(vs, n, relation, o)
    ensures IsPaired(vs, n', relation, o)
  {
    var j, m :| 0 <= j <= m < n && vs[j].isVerb && vs[m].isVerb && vs[m].relation == relation && o in vs[j].found;
    assert m < n';
  }

  /** Every object in rule 1's list after `k` visits was found under one of the VERBs among them. */
  lemma {:induction false} ObjectsAfterProvenance(vs: seq<Visit>, k: nat, o: string)
    requires k <= |vs| && o in ObjectsAfter(vs, k)
    ensures IsVerbObject(vs, k, o)
  {
    if k > 0 {
      SubjectStep("", vs, k - 1);
      if o in ObjectsAfter(vs, k - 1) {
        ObjectsAfterProvenance(vs, k - 1, o);
        VerbObjectWiden(vs, k - 1, k, o);
      } else {
        assert vs[k - 1].isVerb && o in vs[k - 1].found;
      }
    }
  }

  /** The object list is never reset: the list after `k` visits is a prefix of
      the list after any later visit. */
  lemma {:induction false} ObjectsAfterGrows(vs: seq<Visit>, k: nat, k': nat)
    requires k <= k' <= |vs|
    ensures |ObjectsAfter(vs, k)| <= |ObjectsAfter(vs, k')|
    ensures ObjectsAfter(vs, k')[..|ObjectsAfter(vs, k)|] == ObjectsAfter(vs, k)
    decreases k'
  {
    if k < k' {
      ObjectsAfterGrows(vs, k, k' - 1);
      SubjectStep("", vs, k' - 1);
      var before := ObjectsAfter(vs, k' - 1);
      var after := ObjectsAfter(vs, k');
      var n := |ObjectsAfter(vs, k)|;
      assert after[..|before|] == before;
      assert after[..n] == before[..n];
    }
  }

  /** An object found under VERB visit `j` is in the list right after that visit. */
  lemma FoundIsCollected(vs: seq<Visit>, j: nat, o: string)
    requires j < |vs| && vs[j].isVerb && o in vs[j].found
    ensures o in ObjectsAfter(vs, j + 1)
  {
    SubjectStep("", vs, j);
    var p :| 0 <= p < |vs[j].found| && vs[j].found[p] == o;
    assert ObjectsAfter(vs, j + 1)[|ObjectsAfter(vs, j)| + p] == o;
  }

  /** An object in the list after `k` visits is still there after any later visit. */
  lemma ObjectsAfterKeeps(vs: seq<Visit>, k: nat, k': nat, o: string)
    requires k <= k' <= |vs| && o in ObjectsAfter(vs, k)
    ensures o in ObjectsAfter(vs, k')
  {
    ObjectsAfterGrows(vs, k, k');
    var before := ObjectsAfter(vs, k);
    var m :| 0 <= m < |before| && before[m] == o;
    assert ObjectsAfter(vs, k')[..|before|][m] == o;
  }

  /** A triple appended once stays in rule 1's output for the rest of the walk. */
  lemma {:induction false} SubjectPrefixGrows(subject: string, vs: seq<Visit>, k: nat, k': nat, t: Triple)
    requires k <= k' <= |vs| && t in SubjectPrefix(subject, vs, k)
    ensures t in SubjectPrefix(subject, vs, k')
    decreases k'
  {
    if k < k' {
      SubjectPrefixGrows(subject, vs, k, k' - 1, t);
      SubjectStep(subject, vs, k' - 1);
    }
  }

  /** A subject token with empty text makes rule 1 emit nothing. */
  lemma {:induction false} SubjectPrefixEmptySubject(vs: seq<Visit>, k: nat)
    requires k <= |vs|
    ensures SubjectPrefix("", vs, k) == []
  {
    if k > 0 {
      SubjectPrefixEmptySubject(vs, k - 1);
      SubjectStep("", vs, k - 1);
    }
  }

  /** Without a VERB among the visited siblings rule 1 emits nothing. */
  lemma {:induction false} SubjectPrefixWithoutVerbs(subject: string, vs: seq<Visit>, k: nat)
    requires k <= |vs| && forall j :: 0 <= j < k ==> !vs[j].isVerb
    ensures SubjectPrefix(subject, vs, k) == []
  {
    if k > 0 {
      SubjectPrefixWithoutVerbs(subject, vs, k - 1);
      SubjectStep(subject, vs, k - 1);
    }
  }

  /** Every triple rule 1 emits over the first `k` visits has the (non-empty)
      subject text as subject, the non-empty lemma of one of those visits that is
      a VERB as predicate, and as object something found under a VERB visited at
      or before the predicate's VERB. */
  lemma {:induction false} SubjectPrefixProvenance(subject: string, vs: seq<Visit>, k: nat, t: Triple)
    requires k <= |vs| && t in SubjectPrefix(subject, vs, k)
    ensures t.head == subject
    ensures subject != "" && t.relation != ""
    ensures exists j :: 0 <= j < k && vs[j].isVerb && vs[j].relation == t.relation
    ensures IsVerbObject(vs, k, t.tail)
    ensures IsPaired(vs, k, t.relation, t.tail)
  {
    if k > 0 {
      SubjectStep(subject, vs, k - 1);
      if t in SubjectPrefix(subject, vs, k - 1) {
        SubjectPrefixProvenance(subject, vs, k - 1, t);
        VerbObjectWiden(vs, k - 1, k, t.tail);
        PairedWiden(vs, k - 1, k, t.relation, t.tail);
      } else {
        EmitMembership(subject, vs[k - 1].relation, ObjectsAfter(vs, k), t);
        ObjectsAfterProvenance(vs, k, t.tail);
        var j :| 0 <= j < k && vs[j].isVerb && t.tail in vs[j].found;
        assert vs[k - 1].isVerb && vs[k - 1].relation == t.relation;
        assert j <= k - 1 < k;
      }
    }
  }

  /** Rule 1 over the visits, exactly: a triple is emitted iff it has the
      non-empty subject as subject, a non-empty lemma as predicate, and pairs an
      object found under a VERB with the lemma of that VERB or of a later one. */
  lemma SubjectPrefixExact(subject: string, vs: seq<Visit>, t: Triple)
    ensures t in SubjectPrefix(subject, vs, |vs|) <==>
      t.head == subject && subject != "" && t.relation != "" && IsPaired(vs, |vs|, t.relation, t.tail)
  {
    if t in SubjectPrefix(subject, vs, |vs|) {
      SubjectPrefixProvenance(subject, vs, |vs|, t);
    }
    if t.head == subject && subject != "" && t.relation != "" && IsPaired(vs, |vs|, t.relation, t.tail) {
      var j, m :| 0 <= j <= m < |vs| && vs[j].isVerb && vs[m].isVerb && vs[m].relation == t.relation && t.tail in vs[j].found;
      EarlierObjectsCarryOver(subject, vs, j, m, t.tail);
      assert t == Triple(subject, vs[m].relation, t.tail);
    }
  }

  /** The object list is not reset between siblings: an object found under the
      VERB visit `j` is paired with the lemma of that VERB and of every later VERB
      with a non-empty lemma. */
  lemma EarlierObjectsCarryOver(subject: string, vs: seq<Visit>, j: nat, k: nat, o: string)
    requires subject != "" && j <= k < |vs|
    requires vs[j].isVerb && vs[k].isVerb && vs[k].relation != "" && o in vs[j].found
    ensures Triple(subject, vs[k].relation, o) in SubjectPrefix(subject, vs, |vs|)
  {
    FoundIsCollected(vs, j, o);
    ObjectsAfterKeeps(vs, j + 1, k + 1, o);
    SubjectStep(subject, vs, k);
    EmitMembership(subject, vs[k].relation, ObjectsAfter(vs, k + 1), Triple(subject, vs[k].relation, o));
    SubjectPrefixGrows(subject, vs, k + 1, |vs|, Triple(subject, vs[k].relation, o));
  }

  /** Among the siblings `cs`, `o` is an object-labelled child of a VERB that comes
      at or before a VERB whose lemma is `relation`. */
  ghost predicate SiblingsPaired(doc: seq<Token>, cs: seq<nat>, relation: string, o: string)
    requires InDoc(doc, cs)
  {
    exists j, m :: 0 <= j <= m < |cs| && doc[cs[j]].pos == "VERB" && doc[cs[m]].pos == "VERB"
      && doc[cs[m]].baseForm == relation && o in ObjectTexts(doc, Children(doc, cs[j]))
  }

  /** Visit `k` of the siblings `cs` summarises the sibling `cs[k]`. */
  lemma VisitAt(doc: seq<Token>, cs: seq<nat>, k: nat)
    requires InDoc(doc, cs) && k < |cs|
    ensures |Visits(doc, cs)| == |cs|
    ensures Visits(doc, cs)[k].isVerb == (doc[cs[k]].pos == "VERB")
    ensures Visits(doc, cs)[k].relation == doc[cs[k]].baseForm
    ensures Visits(doc, cs)[k].found == ObjectTexts(doc, Children(doc, cs[k]))
  {
  }

  /** A pairing of visits is a pairing of the siblings they summarise. */
  lemma PairedSiblings(doc: seq<Token>, cs: seq<nat>, relation: string, o: string)
    requires InDoc(doc, cs)
    ensures IsPaired(Visits(doc, cs), |cs|, relation, o) <==> SiblingsPaired(doc, cs, relation, o)
  {
    var vs := Visits(doc, cs);
    if IsPaired(vs, |cs|, relation, o) {
      var j, m :| 0 <= j <= m < |vs| && vs[j].isVerb && vs[m].isVerb && vs[m].relation == relation && o in vs[j].found;
      VisitAt(doc, cs, j);
      VisitAt(doc, cs, m);
      assert doc[cs[j]].pos == "VERB" && doc[cs[m]].pos == "VERB" && doc[cs[m]].baseForm == relation;
      assert o in ObjectTexts(doc, Children(doc, cs[j]));
    }
    if SiblingsPaired(doc, cs, relation, o) {
      var j, m :| 0 <= j <= m < |cs| && doc[cs[j]].pos == "VERB" && doc[cs[m]].pos == "VERB"
        && doc[cs[m]].baseForm == relation && o in ObjectTexts(doc, Children(doc, cs[j]));
      VisitAt(doc, cs, j);
      VisitAt(doc, cs, m);
      assert vs[j].isVerb && vs[m].isVerb && vs[m].relation == relation && o in vs[j].found;
    }
  }

  /** Rule 1 for token `i`: every triple has the token's own (non-empty) text as
      subject, the non-empty lemma of a VERB child of the token's head as
      predicate, and as object an object-labelled child of a VERB sibling at or
      before the predicate's VERB; an empty subject text yields nothing. */
  lemma SubjectRuleShape(doc: seq<Token>, i: nat)
    requires WellFormed(doc) && i < |doc| && IsSubjectDep(doc[i].dep)
    ensures doc[i].text == "" ==> TokenTriples(doc, i) == []
    ensures forall t :: t in TokenTriples(doc, i) ==>
      var siblings := Children(doc, doc[i].head);
      && t.head == doc[i].text && doc[i].text != "" && t.relation != ""
      && (exists k :: 0 <= k < |siblings| && doc[siblings[k]].pos == "VERB" && doc[siblings[k]].baseForm == t.relation)
      && (exists k :: 0 <= k < |siblings| && doc[siblings[k]].pos == "VERB"
            && t.tail in ObjectTexts(doc, Children(doc, siblings[k])))
      && SiblingsPaired(doc, siblings, t.relation, t.tail)
  {
    var siblings := Children(doc, doc[i].head);
    var vs := Visits(doc, siblings);
    SubjectPrefixEmptySubject(vs, |vs|);
    forall t | t in TokenTriples(doc, i)
      ensures && t.head == doc[i].text && doc[i].text != "" && t.relation != ""
        && (exists k :: 0 <= k < |siblings| && doc[siblings[k]].pos == "VERB" && doc[siblings[k]].baseForm == t.relation)
        && (exists k :: 0 <= k < |siblings| && doc[siblings[k]].pos == "VERB"
              && t.tail in ObjectTexts(doc, Children(doc, siblings[k])))
        && SiblingsPaired(doc, siblings, t.relation, t.tail)
    {
      SubjectPrefixProvenance(doc[i].text, vs, |vs|, t);
      var j :| 0 <= j < |vs| && vs[j].isVerb && vs[j].relation == t.relation;
      assert vs[j] == VisitOf(doc, siblings[j]);
      var k :| 0 <= k < |vs| && vs[k].isVerb && t.tail in vs[k].found;
      assert vs[k] == VisitOf(doc, siblings[k]);
      PairedSiblings(doc, siblings, t.relation, t.tail);
    }
  }

  /** Rule 1 for token `i`, exactly: a triple is emitted iff its subject is the
      token's non-empty text, its predicate a non-empty lemma, and it pairs an
      object-labelled child of a VERB sibling with the lemma of that VERB or of a
      later VERB sibling. */
  lemma SubjectRuleExact(doc: seq<Token>, i: nat, t: Triple)
    requires WellFormed(doc) && i < |doc| && IsSubjectDep(doc[i].dep)
    ensures t in TokenTriples(doc, i) <==>
      && t.head == doc[i].text && doc[i].text != "" && t.relation != ""
      && SiblingsPaired(doc, Children(doc, doc[i].head), t.relation, t.tail)
  {
    var siblings := Children(doc, doc[i].head);
    assert TokenTriples(doc, i) == SubjectTriples(doc, i);
    SubjectPrefixExact(doc[i].text, Visits(doc, siblings), t);
    PairedSiblings(doc, siblings, t.relation, t.tail);
  }

  /** Rule 1 for token `i` with non-empty text: each object-labelled child of a
      VERB sibling is paired with the lemma of that VERB and of every later VERB
      sibling with a non-empty lemma. */
  lemma SubjectRuleCarriesObjects(doc: seq<Token>, i: nat, j: nat, k: nat, g: nat)
    requires WellFormed(doc) && i < |doc| && IsSubjectDep(doc[i].dep) && doc[i].text != ""
    requires j <= k < |Children(doc, doc[i].head)|
    requires doc[Children(doc, doc[i].head)[j]].pos == "VERB"
    requires doc[Children(doc, doc[i].head)[k]].pos == "VERB" && doc[Children(doc, doc[i].head)[k]].baseForm != ""
    requires g in Children(doc, Children(doc, doc[i].head)[j]) && IsObjectDep(doc[g].dep)
    ensures Triple(doc[i].text, doc[Children(doc, doc[i].head)[k]].baseForm, doc[g].text) in TokenTriples(doc, i)
  {
    var siblings := Children(doc, doc[i].head);
    var vs := Visits(doc, siblings);
    var gs := Children(doc, siblings[j]);
    ObjectTextsSpec(doc, gs);
    var m :| 0 <= m < |gs| && gs[m] == g;
    assert doc[g].text in vs[j].found;
    EarlierObjectsCarryOver(doc[i].text, vs, j, k, doc[g].text);
  }

  // ---------------------------------------------------------------------------
  // Rule 2

  /** Rule 2's object list is a filter over the children: it distributes over
      concatenation, so objects appear in child order. */
  lemma {:induction false} VerbObjectTextsConcat(doc: seq<Token>, a: seq<nat>, b: seq<nat>)
    requires InDoc(doc, a) && InDoc(doc, b)
    ensures InDoc(doc, a + b)
    ensures VerbObjectTexts(doc, a + b) == VerbObjectTexts(doc, a) + VerbObjectTexts(doc, b)
    decreases |b|
  {
    assert InDoc(doc, a + b) by {
      forall k | 0 <= k < |a + b| ensures (a + b)[k] < |doc| {
        if k >= |a| { assert (a + b)[k] == b[k - |a|]; }
      }
    }
    if b != [] {
      var b' := b[..|b| - 1];
      assert (a + b)[..|a + b| - 1] == a + b';
      VerbObjectTextsConcat(doc, a, b');
    } else {
      assert a + b == a;
    }
  }

  /** Rule 2 for verb token `i`: the triples are the collected objects in child order,
      all with the verb's lemma as predicate and the text of the LAST "subj" child as
      subject; nothing is emitted when there is no subject child, no object child or
      the lemma is empty. */
  lemma VerbRuleShape(doc: seq<Token>, i: nat)
    requires WellFormed(doc) && i < |doc| && !IsSubjectDep(doc[i].dep) && doc[i].pos == "VERB"
    ensures var cs := Children(doc, i);
      var subject := LastSubject(doc, cs);
      var objects := VerbObjectTexts(doc, cs);
      var r := TokenTriples(doc, i);
      && (r != [] <==> subject.Some? && doc[i].baseForm != "" && objects != [])
      && (r != [] ==> |r| == |objects| && forall k :: 0 <= k < |r| ==> r[k] == Triple(subject.value, doc[i].baseForm, objects[k]))
  {
    var cs := Children(doc, i);
    if LastSubject(doc, cs).Some? {
      EmitSpec(LastSubject(doc, cs).value, doc[i].baseForm, VerbObjectTexts(doc, cs));
    }
  }

  /** A VERB with a "subj" child and an object child, and a non-empty lemma, yields
      one triple per object child, paired with the last subject child. */
  lemma VerbRuleFires(doc: seq<Token>, i: nat, s: nat, o: nat)
    requires WellFormed(doc) && i < |doc| && !IsSubjectDep(doc[i].dep) && doc[i].pos == "VERB"
    requires doc[i].baseForm != ""
    requires s < |Children(doc, i)| && IsSubjectDep(doc[Children(doc, i)[s]].dep)
    requires forall k :: s < k < |Children(doc, i)| ==> !IsSubjectDep(doc[Children(doc, i)[k]].dep)
    requires o < |Children(doc, i)| && IsObjectDep(doc[Children(doc, i)[o]].dep)
    requires !IsSubjectDep(doc[Children(doc, i)[o]].dep)
    ensures Triple(doc[Children(doc, i)[s]].text, doc[i].baseForm, doc[Children(doc, i)[o]].text) in TokenTriples(doc, i)
  {
    var cs := Children(doc, i);
    LastSubjectSpec(doc, cs);
    VerbObjectTextsSpec(doc, cs);
    var subject := LastSubject(doc, cs);
    var k :| 0 <= k < |cs| && IsSubjectDep(doc[cs[k]].dep) && doc[cs[k]].text == subject.value
      && forall k' :: k < k' < |cs| ==> !IsSubjectDep(doc[cs[k']].dep);
    assert k == s;
    var objects := VerbObjectTexts(doc, cs);
    EmitMembership(subject.value, doc[i].baseForm, objects, Triple(subject.value, doc[i].baseForm, doc[cs[o]].text));
    assert TokenTriples(doc, i) == VerbTriples(doc, i);
  }

  // ---------------------------------------------------------------------------
  // Rules 3 and 4

  /** Rule 3: exactly one triple `(head text, "is", adjective text)` when the
      head is a NOUN or PROPN, and nothing otherwise. */
  lemma AdjectiveRuleShape(doc: seq<Token>, i: nat)
    requires WellFormed(doc) && i < |doc| && Classify(doc[i]) == Adjective
    ensures var target := doc[doc[i].head];
      TokenTriples(doc, i) == if target.pos == "NOUN" || target.pos == "PROPN"
                              then [Triple(target.text, "is", doc[i].text)] else []
  {
  }

  /** Rule 4's output is a filter over the children: it distributes over concatenation. */
  lemma {:induction false} PrepositionWalkConcat(doc: seq<Token>, headText: string, relation: string, a: seq<nat>, b: seq<nat>)
    requires InDoc(doc, a) && InDoc(doc, b)
    ensures InDoc(doc, a + b)
    ensures PrepositionWalk(doc, headText, relation, a + b)
         == PrepositionWalk(doc, headText, relation, a) + PrepositionWalk(doc, headText, relation, b)
    decreases |b|
  {
    assert InDoc(doc, a + b) by {
      forall k | 0 <= k < |a + b| ensures (a + b)[k] < |doc| {
        if k >= |a| { assert (a + b)[k] == b[k - |a|]; }
      }
    }
    if b != [] {
      var b' := b[..|b| - 1];
      assert (a + b)[..|a + b| - 1] == a + b';
      PrepositionWalkConcat(doc, headText, relation, a, b');
    } else {
      assert a + b == a;
    }
  }

  /** Rule 4 for preposition token `i`: one triple `(head text, lemma, child text)`
      for each NOUN or PROPN child and none for any other child. */
  lemma PrepositionRuleShape(doc: seq<Token>, i: nat)
    requires WellFormed(doc) && i < |doc| && Classify(doc[i]) == Preposition
    ensures var cs := Children(doc, i);
      && (forall t :: t in TokenTriples(doc, i) ==>
            t.head == doc[doc[i].head].text && t.relation == doc[i].baseForm
            && exists k :: 0 <= k < |cs| && IsNominal(doc[cs[k]].pos) && doc[cs[k]].text == t.tail)
      && (forall k :: 0 <= k < |cs| && IsNominal(doc[cs[k]].pos) ==>
            Triple(doc[doc[i].head].text, doc[i].baseForm, doc[cs[k]].text) in TokenTriples(doc, i))
      && ((forall k :: 0 <= k < |cs| ==> !IsNominal(doc[cs[k]].pos)) ==> TokenTriples(doc, i) == [])
  {
    var cs := Children(doc, i);
    PrepositionWalkSpec(doc, doc[doc[i].head].text, doc[i].baseForm, cs);
    var r := TokenTriples(doc, i);
    if r != [] {
      assert r[0] in r;
    }
  }

  // ---------------------------------------------------------------------------
  // Object provenance and the whole walk

  /** In rule 1 every object is the text of a token whose label contains "obj". */
  lemma SubjectObjectProvenance(doc: seq<Token>, i: nat, t: Triple)
    requires WellFormed(doc) && i < |doc| && Classify(doc[i]) == SubjectBearing
    requires t in TokenTriples(doc, i)
    ensures exists g :: 0 <= g < |doc| && Contains(doc[g].dep, "obj") && doc[g].text == t.tail
  {
    SubjectRuleShape(doc, i);
    var siblings := Children(doc, doc[i].head);
    var k :| 0 <= k < |siblings| && doc[siblings[k]].pos == "VERB"
      && t.tail in ObjectTexts(doc, Children(doc, siblings[k]));
    var gs := Children(doc, siblings[k]);
    ObjectTextsSpec(doc, gs);
    var m :| 0 <= m < |gs| && IsObjectDep(doc[gs[m]].dep) && doc[gs[m]].text == t.tail;
    PobjImpliesObj(doc[gs[m]].dep);
  }

  /** In rule 2 every object is the text of a token whose label contains "obj". */
  lemma VerbObjectProvenance(doc: seq<Token>, i: nat, t: Triple)
    requires WellFormed(doc) && i < |doc| && Classify(doc[i]) == Verb
    requires t in TokenTriples(doc, i)
    ensures exists g :: 0 <= g < |doc| && Contains(doc[g].dep, "obj") && doc[g].text == t.tail
  {
    var cs := Children(doc, i);
    var objects := VerbObjectTexts(doc, cs);
    assert t in VerbTriples(doc, i);
    EmitMembership(LastSubject(doc, cs).value, doc[i].baseForm, objects, t);
    VerbObjectTextsSpec(doc, cs);
    var k :| 0 <= k < |cs| && !IsSubjectDep(doc[cs[k]].dep) && IsObjectDep(doc[cs[k]].dep)
      && doc[cs[k]].text == t.tail;
    PobjImpliesObj(doc[cs[k]].dep);
  }

  /** The list after `n` tokens holds exactly the triples of those tokens. */
  lemma {:induction false} AppendedMembership(doc: seq<Token>, n: nat, t: Triple)
    requires WellFormed(doc) && n <= |doc|
    ensures t in Appended(doc, n) <==> exists i :: 0 <= i < n && t in TokenTriples(doc, i)
  {
    if n > 0 {
      AppendedMembership(doc, n - 1, t);
      var last := TokenTriples(doc, n - 1);
      assert Appended(doc, n) == Appended(doc, n - 1) + last;
      if t in Appended(doc, n) {
        if t in Appended(doc, n - 1) {
          var i :| 0 <= i < n - 1 && t in TokenTriples(doc, i);
          assert 0 <= i < n && t in TokenTriples(doc, i);
        } else {
          assert t in last;
          assert 0 <= n - 1 < n && t in TokenTriples(doc, n - 1);
        }
      }
      if exists i :: 0 <= i < n && t in TokenTriples(doc, i) {
        var i :| 0 <= i < n && t in TokenTriples(doc, i);
        if i < n - 1 {
          assert t in Appended(doc, n - 1);
        } else {
          assert t in last;
        }
      }
    }
  }

  /** An empty document yields no triples. */
  lemma EmptyDocument()
    ensures AllTriples([]) == []
    ensures Dedup(AllTriples([])) == []
  {
  }

  // ---------------------------------------------------------------------------
  // De-duplication

  /** A list without duplicates is left as it is. */
  lemma {:induction false} DedupOfDistinct(s: seq<Triple>)
    requires NoDuplicates(s)
    ensures Dedup(s) == s
  {
    if s != [] {
      var p := s[..|s| - 1];
      DedupOfDistinct(p);
      assert s[|s| - 1] !in p by {
        forall a | 0 <= a < |p| ensures p[a] != s[|s| - 1] {
          assert p[a] == s[a];
        }
      }
      assert p + [s[|s| - 1]] == s;
    }
  }

  /** De-duplicating twice is the same as de-duplicating once. */
  lemma DedupIdempotent(s: seq<Triple>)
    ensures Dedup(Dedup(s)) == Dedup(s)
  {
    DedupSpec(s);
    DedupOfDistinct(Dedup(s));
  }
}
