/**
 * Alignment of one source field with one destination field
 * (MakeMCTranslator, translatorMakers and MakeFieldTranslator,
 * forms.go:154-199).
 *
 * Both fields are resolved into answers; the i-th source Response is then
 * sent to the i-th destination Value. Only multiple-choice source fields are
 * aligned; every other type passes its answers through.
 */
module FieldTranslation {
  import opened Wrappers
  import opened Schema
  import opened AnswerResolution

  /**
   * The positional map built by MakeMCTranslator: the i-th source Response
   * to the i-th destination Value, in order, so a later pair overrides an
   * earlier one with the same Response.
   */
  function Zip(src: seq<Answer>, dst: seq<Answer>): map<string, string>
    requires |src| == |dst|
    decreases |src|
  {
    if |src| == 0 then map[]
    else Zip(src[..|src| - 1], dst[..|dst| - 1])[src[|src| - 1].response := dst[|dst| - 1].value]
  }

  /** The keys of the map are exactly the source Responses. */
  lemma {:induction false} ZipKeys(src: seq<Answer>, dst: seq<Answer>)
    requires |src| == |dst|
    ensures Zip(src, dst).Keys == set a | a in src :: a.response
    decreases |src|
  {
    if |src| > 0 {
      var n := |src| - 1;
      ZipKeys(src[..n], dst[..n]);
      assert src == src[..n] + [src[n]];
    }
  }

  /** A Response is sent to the Value at the last position that carries it. */
  lemma {:induction false} ZipLastWins(src: seq<Answer>, dst: seq<Answer>, i: nat)
    requires |src| == |dst| && i < |src|
    requires forall j | i < j < |src| :: src[j].response != src[i].response
    ensures src[i].response in Zip(src, dst)
    ensures Zip(src, dst)[src[i].response] == dst[i].value
    decreases |src|
  {
    var n := |src| - 1;
    if i < n {
      ZipLastWins(src[..n], dst[..n], i);
    }
  }

  /** With distinct Responses, every position is kept. */
  lemma ZipDistinct(src: seq<Answer>, dst: seq<Answer>)
    requires |src| == |dst|
    requires forall i, j | 0 <= i < j < |src| :: src[i].response != src[j].response
    ensures forall i | 0 <= i < |src| :: src[i].response in Zip(src, dst) && Zip(src, dst)[src[i].response] == dst[i].value
  {
    forall i | 0 <= i < |src|
      ensures src[i].response in Zip(src, dst) && Zip(src, dst)[src[i].response] == dst[i].value
    {
      ZipLastWins(src, dst, i);
    }
  }

  /** A resolution failure of either side, wrapped with both refs. */
  function Wrapped(r: Result<seq<Answer>, Error>, src: Field, dst: Field): Result<seq<Answer>, Error> {
    match r
    case Success(a) => Success(a)
    case Failure(e) => Failure(FieldBuildFailed(src.ref, dst.ref, e))
  }

  /**
   * What MakeMCTranslator computes: the source side is resolved first, then
   * the destination side; a count mismatch is only reported once both have
   * resolved.
   */
  function ChoiceMapping(src: Field, dst: Field): (r: Result<map<string, string>, Error>)
    ensures r.Success? <==>
      Resolve(src).Success? && Resolve(dst).Success? && |src.choices| == |dst.choices|
    ensures Resolve(src).Failure? ==>
      r == Failure(FieldBuildFailed(src.ref, dst.ref, Resolve(src).error))
    ensures Resolve(src).Success? && Resolve(dst).Failure? ==>
      r == Failure(FieldBuildFailed(src.ref, dst.ref, Resolve(dst).error))
    ensures Resolve(src).Success? && Resolve(dst).Success? && |src.choices| != |dst.choices| ==>
      r == Failure(AnswerCountMismatch(src.ref, dst.ref))
  {
    var a :- Wrapped(Resolve(src), src, dst);
    var b :- Wrapped(Resolve(dst), src, dst);
    if |a| != |b| then Failure(AnswerCountMismatch(src.ref, dst.ref))
    else Success(Zip(a, b))
  }

  /** The keys of a built mapping are exactly the source field's declared labels. */
  lemma ChoiceMappingKeys(src: Field, dst: Field)
    requires ChoiceMapping(src, dst).Success?
    ensures ChoiceMapping(src, dst).value.Keys == set c | c in src.choices :: c.labelText
  {
    var a := Resolve(src).value;
    var b := Resolve(dst).value;
    ZipKeys(a, b);
    assert ChoiceMapping(src, dst).value == Zip(a, b);
    forall i | 0 <= i < |src.choices|
      ensures src.choices[i].labelText in set x | x in a :: x.response
    {
      assert a[i] in a;
    }
    forall i | 0 <= i < |a|
      ensures a[i].response in set c | c in src.choices :: c.labelText
    {
      assert src.choices[i] in src.choices;
    }
  }

  /**
   * The i-th source label is sent to the i-th destination Value, unless a
   * later source choice repeats the label.
   */
  lemma ChoiceMappingEntry(src: Field, dst: Field, i: nat)
    requires ChoiceMapping(src, dst).Success? && i < |src.choices|
    requires forall j | i < j < |src.choices| :: src.choices[j].labelText != src.choices[i].labelText
    ensures src.choices[i].labelText in ChoiceMapping(src, dst).value
    ensures ChoiceMapping(src, dst).value[src.choices[i].labelText] == Resolve(dst).value[i].value
  {
    var a := Resolve(src).value;
    var b := Resolve(dst).value;
    assert ChoiceMapping(src, dst).value == Zip(a, b);
    ZipLastWins(a, b, i);
  }

  /** MakeMCTranslator (forms.go:154-181). */
  method MakeMCTranslator(src: Field, dst: Field) returns (r: Result<map<string, string>, Error>)
    ensures r == ChoiceMapping(src, dst)
  {
    var fields := [src, dst];
    var answers := new seq<Answer>[2];
    for i := 0 to 2
      invariant forall j | 0 <= j < i :: Resolve(fields[j]).Success? && answers[j] == Resolve(fields[j]).value
    {
      var resolved := ExtractAnswers(fields[i]);
      if resolved.Failure? {
        assert fields[0] == src && fields[1] == dst;
        return Failure(FieldBuildFailed(src.ref, dst.ref, resolved.error));
      }
      answers[i] := resolved.value;
    }
    var a, b := answers[0], answers[1];
    if |a| != |b| {
      return Failure(AnswerCountMismatch(src.ref, dst.ref));
    }
    var m := PairUp(a, b);
    return Success(m);
  }

  /** The map-filling loop of MakeMCTranslator (forms.go:174-178). */
  method PairUp(a: seq<Answer>, b: seq<Answer>) returns (m: map<string, string>)
    requires |a| == |b|
    ensures m == Zip(a, b)
  {
    m := map[];
    for i := 0 to |a|
      invariant m == Zip(a[..i], b[..i])
    {
      assert a[..i + 1][..i] == a[..i] && b[..i + 1][..i] == b[..i];
      m := m[a[i].response := b[i].value];
    }
    assert a[..|a|] == a && b[..|b|] == b;
  }

  /** The builders registered per source field type (translatorMakers, forms.go:183-185). */
  datatype Maker = ChoiceMaker

  const TranslatorMakers: map<string, Maker> := map["multiple_choice" := ChoiceMaker]

  /**
   * What MakeFieldTranslator computes: the source field's type alone picks
   * the builder; an unregistered type passes its answers through.
   */
  function FieldTranslatorFor(f: Field, d: Field): (r: Result<FieldTranslator, Error>)
    ensures f.fieldType !in TranslatorMakers ==> r == Success(FieldTranslator(false, map[]))
    ensures f.fieldType == "multiple_choice" ==>
      && (r.Success? <==> ChoiceMapping(f, d).Success?)
      && (r.Success? ==> r.value == FieldTranslator(true, ChoiceMapping(f, d).value))
      && (r.Failure? ==> r.error == ChoiceMapping(f, d).error)
  {
    if f.fieldType in TranslatorMakers then
      match TranslatorMakers[f.fieldType]
      case ChoiceMaker =>
        var m :- ChoiceMapping(f, d);
        Success(FieldTranslator(true, m))
    else
      Success(FieldTranslator(false, map[]))
  }

  /** The destination field's own type plays no part. */
  lemma DestinationTypeIgnored(f: Field, d: Field, t: string)
    ensures FieldTranslatorFor(f, d.(fieldType := t)) == FieldTranslatorFor(f, d)
  {
    var d' := d.(fieldType := t);
    assert Resolve(d') == Resolve(d) by {
      assert ChoiceLabels(d'.choices) == ChoiceLabels(d.choices);
    }
  }

  /** A field translator that maps is built from a multiple-choice source: its keys are the source labels. */
  lemma TranslatingMeansChoices(f: Field, d: Field)
    requires FieldTranslatorFor(f, d).Success? && FieldTranslatorFor(f, d).value.translate
    ensures f.fieldType == "multiple_choice"
    ensures FieldTranslatorFor(f, d).value.mapping.Keys == set c | c in f.choices :: c.labelText
  {
    ChoiceMappingKeys(f, d);
  }

  /** MakeFieldTranslator (forms.go:187-199). */
  method MakeFieldTranslator(field: Field, destField: Field) returns (r: Result<FieldTranslator, Error>)
    ensures r == FieldTranslatorFor(field, destField)
  {
    if field.fieldType in TranslatorMakers {
      match TranslatorMakers[field.fieldType]
      case ChoiceMaker =>
        var m := MakeMCTranslator(field, destField);
        if m.Failure? {
          return Failure(m.error);
        }
        return Success(FieldTranslator(true, m.value));
    }
    return Success(FieldTranslator(false, map[]));
  }
}
