/**
 * Resolution of a field's declared choices into (Response, Value) pairs
 * (ExtractAnswers, forms.go:111-152), with its two helpers mapResponse and
 * compare (forms.go:89-109).
 *
 * A field whose first choice label is exactly "A" is "shortened": its values
 * are read off the lettered lines of its title, and the letters found must
 * be exactly the declared labels, in order. Any other field answers each
 * label with itself.
 */
module AnswerResolution {
  import opened Wrappers
  import opened Schema
  import opened LabelExtraction

  /** The labels of the declared choices, in order. */
  function ChoiceLabels(choices: seq<Choice>): seq<string> {
    seq(|choices|, i requires 0 <= i < |choices| => choices[i].labelText)
  }

  /** The Response of every answer, in order. */
  function Responses(answers: seq<Answer>): seq<string> {
    seq(|answers|, i requires 0 <= i < |answers| => answers[i].response)
  }

  /** Every label answered by itself. */
  function SelfAnswers(labels: seq<string>): seq<Answer> {
    seq(|labels|, i requires 0 <= i < |labels| => Answer(labels[i], labels[i]))
  }

  /** The label that marks a field whose values are written in its title. */
  const ShortenedMarker: string := "A"

  /**
   * What ExtractAnswers computes for a field: an error for a field without
   * choices or for a title whose letters disagree with the declared labels;
   * otherwise one answer per declared choice, in order.
   */
  function Resolve(f: Field): (r: Result<seq<Answer>, Error>)
    ensures |f.choices| == 0 ==> r == Failure(NoChoices(f.ref))
    ensures r.Failure? <==>
      || |f.choices| == 0
      || (f.choices[0].labelText == ShortenedMarker && Responses(Labels(f.title)) != ChoiceLabels(f.choices))
    ensures r.Success? ==>
      && |r.value| == |f.choices|
      && forall i | 0 <= i < |f.choices| :: r.value[i].response == f.choices[i].labelText
    ensures |f.choices| > 0 && f.choices[0].labelText != ShortenedMarker ==>
      r.Success? && forall i | 0 <= i < |r.value| :: r.value[i].value == r.value[i].response
    ensures |f.choices| > 0 && f.choices[0].labelText == ShortenedMarker && r.Success? ==>
      r.value == Labels(f.title)
    ensures |f.choices| > 0 && f.choices[0].labelText == ShortenedMarker && r.Failure? ==>
      r.error == ExtractionMismatch(ChoiceLabels(f.choices), f.title)
  {
    if |f.choices| == 0 then
      Failure(NoChoices(f.ref))
    else
      var labels := ChoiceLabels(f.choices);
      if labels[0] == ShortenedMarker then
        var found := Labels(f.title);
        if Responses(found) == labels then
          assert forall i | 0 <= i < |found| :: found[i].response == Responses(found)[i];
          Success(found)
        else Failure(ExtractionMismatch(labels, f.title))
      else
        Success(SelfAnswers(labels))
  }

  /** Answers read off a title are well formed: one letter, a one-line non-empty value. */
  lemma ResolvedFromTitleWellFormed(f: Field)
    requires |f.choices| > 0 && f.choices[0].labelText == ShortenedMarker && Resolve(f).Success?
    ensures forall a | a in Resolve(f).value :: WellFormed(a)
  {
    LabelsWellFormed(f.title);
  }

  /** Only the declared labels decide an unshortened field's answers: the title is never read. */
  lemma ResolveIgnoresTitle(f: Field, title: string)
    requires |f.choices| > 0 && f.choices[0].labelText != ShortenedMarker
    ensures Resolve(f.(title := title)) == Resolve(f)
  {
    var g := f.(title := title);
    assert ChoiceLabels(g.choices) == ChoiceLabels(f.choices);
  }

  /** mapResponse (forms.go:89-95): the Response of every answer, in order. */
  method MapResponse(answers: seq<Answer>) returns (res: seq<string>)
    ensures |res| == |answers|
    ensures forall i | 0 <= i < |answers| :: res[i] == answers[i].response
  {
    var out := new string[|answers|];
    for i := 0 to |answers|
      invariant forall j | 0 <= j < i :: out[j] == answers[j].response
    {
      out[i] := answers[i].response;
    }
    res := out[..];
  }

  /** compare (forms.go:97-109): element-wise equality, stopping at the first difference. */
  method Compare(a: seq<string>, b: seq<string>) returns (same: bool)
    ensures same <==> a == b
  {
    if |a| != |b| {
      return false;
    }
    for i := 0 to |b|
      invariant forall j | 0 <= j < i :: a[j] == b[j]
    {
      if a[i] != b[i] {
        return false;
      }
    }
    return true;
  }

  /** ExtractAnswers (forms.go:111-152). */
  method ExtractAnswers(field: Field) returns (r: Result<seq<Answer>, Error>)
    ensures r == Resolve(field)
  {
    var choices := field.choices;
    var n := |choices|;
    if n == 0 {
      return Failure(NoChoices(field.ref));
    }
    var labels := new string[n];
    for i := 0 to n
      invariant forall j | 0 <= j < i :: labels[j] == choices[j].labelText
    {
      labels[i] := choices[i].labelText;
    }
    var declared := labels[..];
    assert declared == ChoiceLabels(choices);
    if declared[0] == ShortenedMarker {
      var found := ExtractLabels(field.title);
      var responses := MapResponse(found);
      assert responses == Responses(found);
      var same := Compare(declared, responses);
      if !same {
        return Failure(ExtractionMismatch(declared, field.title));
      }
      return Success(found);
    }
    var answers := new Answer[n];
    for i := 0 to n
      invariant forall j | 0 <= j < i :: answers[j] == Answer(declared[j], declared[j])
    {
      answers[i] := Answer(declared[i], declared[i]);
    }
    assert answers[..] == SelfAnswers(declared);
    return Success(answers[..]);
  }
}
