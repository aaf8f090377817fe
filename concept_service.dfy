/** The NLP concept service: the concept labels of the phrase graph, without the
    generic "Phrase" label, each stripped of its eight-character "Concept_"
    prefix. */
module ConceptService {
  import opened Outcomes

  /** The label every phrase node carries; it is not a concept. */
  const PhraseLabel: string := "Phrase"
  /** The prefix of concept labels; only its length is used. */
  const ConceptPrefix: string := "Concept_"

  /** The labels that name concepts, in their original order. */
  function ConceptLabels(labels: seq<string>): (r: seq<string>)
    ensures forall x :: x in r <==> x in labels && x != PhraseLabel
    ensures |r| == |labels| - multiset(labels)[PhraseLabel]
  {
    if labels == [] then []
    else
      var rest := ConceptLabels(labels[1..]);
      assert forall x :: x in labels <==> x == labels[0] || x in labels[1..];
      assert labels == [labels[0]] + labels[1..];
      assert multiset(labels) == multiset([labels[0]]) + multiset(labels[1..]);
      if labels[0] == PhraseLabel then rest else [labels[0]] + rest
  }

  /** The stripping cannot fail: no concept label is shorter than the prefix. */
  predicate Strippable(labels: seq<string>) {
    forall i :: 0 <= i < |labels| && labels[i] != PhraseLabel ==> |labels[i]| >= |ConceptPrefix|
  }

  /** The stream over the label list: filter out "Phrase", then cut the first
      eight characters of each remaining label. substring throws on a label
      shorter than eight characters, and the exception ends the whole call. */
  function Texts(labels: seq<string>): (r: Result<seq<string>>)
    ensures r.Ok? <==> Strippable(labels)
    ensures r.Fail? ==> r.status == InternalServerError
    ensures r.Ok? ==> |r.value| == |ConceptLabels(labels)|
    ensures r.Ok? ==> forall j :: 0 <= j < |r.value| ==>
      |ConceptLabels(labels)[j]| >= |ConceptPrefix|
      && r.value[j] == ConceptLabels(labels)[j][|ConceptPrefix|..]
  {
    if labels == [] then Ok([])
    else
      var rest := Texts(labels[1..]);
      assert Strippable(labels) <==>
        (Strippable(labels[1..]) && (labels[0] != PhraseLabel ==> |labels[0]| >= |ConceptPrefix|)) by {
        assert forall i :: 1 <= i < |labels| ==> labels[i] == labels[1..][i - 1];
      }
      if labels[0] == PhraseLabel then rest
      else if |labels[0]| < |ConceptPrefix| then Fail(InternalServerError)
      else if rest.Fail? then rest
      else Ok([labels[0][|ConceptPrefix|..]] + rest.value)
  }

  /** concepts(): an absent concept collection gives the empty list. */
  function Concepts(collection: Option<seq<string>>): (r: Result<seq<string>>)
    ensures collection.None? ==> r == Ok([])
    ensures collection.Some? ==> (r.Ok? <==> Strippable(collection.value))
  {
    match collection
    case None => Ok([])
    case Some(labels) => Texts(labels)
  }

  /** count(): the size of concepts(). */
  function Count(collection: Option<seq<string>>): (r: Result<nat>)
    ensures r.Ok? <==> Concepts(collection).Ok?
    ensures r.Ok? ==> r.value == |Concepts(collection).value|
    ensures r.Fail? ==> r.status == Concepts(collection).status
  {
    match Concepts(collection)
    case Ok(texts) => Ok(|texts|)
    case Fail(s) => Fail(s)
  }

  /** The filter keeps a single label exactly when it is not "Phrase". */
  lemma ConceptLabelsSingle(x: string)
    ensures ConceptLabels([x]) == if x == PhraseLabel then [] else [x]
  {
    assert [x][1..] == [];
  }

  /** The filter works label by label: filtering a concatenation concatenates the
      filtered parts. With ConceptLabelsSingle this fixes the output, order and
      duplicates included. */
  lemma {:induction false} ConceptLabelsAppend(a: seq<string>, b: seq<string>)
    ensures ConceptLabels(a + b) == ConceptLabels(a) + ConceptLabels(b)
  {
    if a == [] {
      assert a + b == b;
    } else {
      assert (a + b)[1..] == a[1..] + b;
      ConceptLabelsAppend(a[1..], b);
    }
  }

  /** The "Phrase" label never yields a concept: one more "Phrase" label changes
      neither the concept labels nor the result of concepts(). */
  lemma PhraseYieldsNothing(labels: seq<string>)
    ensures ConceptLabels(labels + [PhraseLabel]) == ConceptLabels(labels)
    ensures Concepts(Some(labels + [PhraseLabel])) == Concepts(Some(labels))
  {
    ConceptLabelsAppend(labels, [PhraseLabel]);
    ConceptLabelsSingle(PhraseLabel);
    var more := labels + [PhraseLabel];
    assert Strippable(more) <==> Strippable(labels) by {
      assert forall i :: 0 <= i < |labels| ==> more[i] == labels[i];
    }
    var r, q := Texts(more), Texts(labels);
    if r.Ok? {
      assert q.Ok?;
      assert r.value == q.value;
    }
  }

  /** When every concept label does start with "Concept_", putting the prefix back
      on each text gives the concept labels again, in order. */
  lemma {:induction false} PrefixRoundTrip(labels: seq<string>)
    requires forall i :: 0 <= i < |labels| && labels[i] != PhraseLabel ==>
      |labels[i]| >= |ConceptPrefix| && labels[i][..|ConceptPrefix|] == ConceptPrefix
    ensures Concepts(Some(labels)).Ok?
    ensures var texts := Concepts(Some(labels)).value;
      seq(|texts|, j requires 0 <= j < |texts| => ConceptPrefix + texts[j]) == ConceptLabels(labels)
  {
    var texts := Texts(labels);
    assert texts.Ok?;
    var kept := ConceptLabels(labels);
    forall j | 0 <= j < |kept| ensures ConceptPrefix + texts.value[j] == kept[j] {
      assert kept[j] in kept;
      var k := kept[j];
      assert k in labels && k != PhraseLabel;
      var i :| 0 <= i < |labels| && labels[i] == k;
      assert k == k[..|ConceptPrefix|] + k[|ConceptPrefix|..];
    }
  }
}
