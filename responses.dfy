/**
 * Translation of one recorded response (Translate, responses.go:13-32).
 *
 * A response to a field is looked up in the field's translator: an unknown
 * field ref is an error; a field that is not translated passes the response
 * through; a translated field maps the response, and a response outside the
 * mapping yields no value rather than an error.
 */
module ResponseTranslation {
  import opened Wrappers
  import opened Schema
  import opened AnswerResolution
  import opened FieldTranslation
  import opened FormTranslation

  /** The failure of Translate (TranslationError): the ref has no translator. */
  datatype TranslationError = RefNotInTranslator(ref: string)

  /** Translate (responses.go:13-32); `None` stands for the nil result of an unmapped response. */
  function Translate(ref: string, response: string, ft: FormTranslator): (r: Result<Option<string>, TranslationError>)
    ensures r.Failure? <==> ref !in ft.fields
    ensures r.Failure? ==> r.error == RefNotInTranslator(ref)
    ensures ref in ft.fields && !ft.fields[ref].translate ==> r == Success(Some(response))
    ensures ref in ft.fields && ft.fields[ref].translate ==>
      (r == Success(None) <==> response !in ft.fields[ref].mapping)
    ensures r.Success? && r.value.Some? && ft.fields[ref].translate ==>
      response in ft.fields[ref].mapping && r.value.value == ft.fields[ref].mapping[response]
  {
    if ref !in ft.fields then
      Failure(RefNotInTranslator(ref))
    else
      var fieldTranslator := ft.fields[ref];
      if !fieldTranslator.translate then
        Success(Some(response))
      else if response in fieldTranslator.mapping then
        Success(Some(fieldTranslator.mapping[response]))
      else
        Success(None)
  }

  /** Every source field of a built translator is known to Translate, and no other ref is. */
  lemma TranslateKnowsSourceRefs(src: seq<Field>, dst: seq<Field>, title: string, byRef: bool, ref: string, response: string)
    requires Build(src, dst, title, byRef).Success?
    ensures Translate(ref, response, Build(src, dst, title, byRef).value).Failure? <==>
      forall f | f in src :: f.ref != ref
  {
    BuildKeys(src, dst, title, byRef);
  }

  /**
   * Aligned by shape, the k-th label of a multiple-choice source field
   * translates to the Value of the k-th choice of the field at the same
   * position in the destination form.
   */
  lemma TranslateByShape(src: seq<Field>, dst: seq<Field>, title: string, i: nat, k: nat)
    requires Build(src, dst, title, false).Success? && i < |src|
    requires forall j | i < j < |src| :: src[j].ref != src[i].ref
    requires src[i].fieldType == "multiple_choice"
    requires k < |src[i].choices|
    requires forall j | k < j < |src[i].choices| :: src[i].choices[j].labelText != src[i].choices[k].labelText
    ensures i < |dst| && Resolve(dst[i]).Success? && k < |Resolve(dst[i]).value|
    ensures Translate(src[i].ref, src[i].choices[k].labelText, Build(src, dst, title, false).value)
      == Success(Some(Resolve(dst[i]).value[k].value))
  {
    BuildByShapeEntry(src, dst, title, i);
    ChoiceMappingEntry(src[i], dst[i], k);
  }

  /**
   * Aligned by ref, the k-th label of a multiple-choice source field
   * translates to the Value of the k-th choice of the first destination field
   * with the same ref.
   */
  lemma TranslateByRef(src: seq<Field>, dst: seq<Field>, title: string, i: nat, d: nat, k: nat)
    requires Build(src, dst, title, true).Success? && i < |src|
    requires forall j | i < j < |src| :: src[j].ref != src[i].ref
    requires d < |dst| && dst[d].ref == src[i].ref
    requires forall j | 0 <= j < d :: dst[j].ref != src[i].ref
    requires src[i].fieldType == "multiple_choice"
    requires k < |src[i].choices|
    requires forall j | k < j < |src[i].choices| :: src[i].choices[j].labelText != src[i].choices[k].labelText
    ensures Resolve(dst[d]).Success? && k < |Resolve(dst[d]).value|
    ensures Translate(src[i].ref, src[i].choices[k].labelText, Build(src, dst, title, true).value)
      == Success(Some(Resolve(dst[d]).value[k].value))
  {
    BuildByRefEntry(src, dst, title, i, d);
    ChoiceMappingEntry(src[i], dst[d], k);
  }

  /** A field of any type other than multiple choice passes every response through unchanged. */
  lemma TranslatePassesThrough(src: seq<Field>, dst: seq<Field>, title: string, byRef: bool, i: nat, response: string)
    requires Build(src, dst, title, byRef).Success? && i < |src|
    requires forall j | i < j < |src| :: src[j].ref != src[i].ref
    requires src[i].fieldType != "multiple_choice"
    ensures Translate(src[i].ref, response, Build(src, dst, title, byRef).value) == Success(Some(response))
  {
    AssembleEntry(src, dst, title, byRef, |src|, i);
  }

  /** A response that is none of a translated field's declared labels yields no value. */
  lemma TranslateUnknownResponse(src: seq<Field>, dst: seq<Field>, title: string, byRef: bool, i: nat, response: string)
    requires Build(src, dst, title, byRef).Success? && i < |src|
    requires forall j | i < j < |src| :: src[j].ref != src[i].ref
    requires src[i].fieldType == "multiple_choice"
    requires forall c | c in src[i].choices :: c.labelText != response
    ensures Translate(src[i].ref, response, Build(src, dst, title, byRef).value) == Success(None)
  {
    AssembleEntry(src, dst, title, byRef, |src|, i);
    var d :| Partner(src, dst, title, byRef, i) == Success(d);
    TranslatingMeansChoices(src[i], d);
  }
}
