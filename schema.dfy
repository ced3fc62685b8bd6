/**
 * The data the translator works on (forms.go:9-60). Only the members that the
 * translation logic reads are kept: a choice's label; a field's type, title,
 * ref and choices; a form's title, fields and thank-you screens.
 */
module Schema {

  /** A declared answer option of a field (FieldChoice); `labelText` is its Label. */
  datatype Choice = Choice(labelText: string)

  /** One question of a form; `ref` identifies it within its form. */
  datatype Field = Field(fieldType: string, title: string, ref: string, choices: seq<Choice>)

  /** A resolved option: the key a recorded answer uses, and what it means. */
  datatype Answer = Answer(response: string, value: string)

  /** Per-field policy: pass the answer through, or look it up in `mapping`. */
  datatype FieldTranslator = FieldTranslator(translate: bool, mapping: map<string, string>)

  /** Field translators of a form, keyed by source field ref. */
  datatype FormTranslator = FormTranslator(fields: map<string, FieldTranslator>)

  /** The failures of translator construction (FormTranslationError and friends). */
  datatype Error =
    | NoChoices(ref: string)
    | ExtractionMismatch(labels: seq<string>, title: string)
    | FieldBuildFailed(srcRef: string, dstRef: string, cause: Error)
    | AnswerCountMismatch(srcRef: string, dstRef: string)
    | FormsDifferentLengths
    | RefNotFound(ref: string, formTitle: string)

  /**
   * A questionnaire. Its fields are updated in place when the thank-you
   * screens are appended before alignment.
   */
  class Form {
    var title: string
    var fields: seq<Field>
    var thankYouScreens: seq<Field>
  }
}
