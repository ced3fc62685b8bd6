# trans — aligning questionnaire answers across form versions

`trans` aligns the multiple-choice options of two versions of the same
questionnaire (usually the same survey in two languages). It then uses that
alignment to turn an answer label recorded against one version into the
equivalent value of the other.

The model covers the whole translation core:

- **Label extraction** (`LabelExtraction`, `labels.dfy`). `ExtractLabels`
  reads lettered option lines ("A. foo", "- B) bar", "C-\tbaz") out of a
  question title. The regular expression of `forms.go:64` is written out by
  hand as a predicate over one line of text: `MatchDashed`, `MatchBare` and
  `MatchLine`. `Labels` is the line-by-line specification. The method keeps
  the source's append loop.
- **Answer resolution** (`AnswerResolution`, `answers.dfy`). `ExtractAnswers`
  turns a field's declared choices into (Response, Value) pairs, with its
  helpers `mapResponse` and `compare`. A field whose first label is exactly
  "A" reads its values from its title. Any other field answers each label
  with itself.
- **Field translators** (`FieldTranslation`, `field_translator.dfy`).
  `MakeMCTranslator` zips the source Responses with the destination Values by
  position. `MakeFieldTranslator` dispatches on the source field's type
  through the closed `translatorMakers` table.
- **Form translators** (`FormTranslation`, `form_translator.dfy`).
  - `findField` looks up a field by ref.
  - `prepForms` appends each form's thank-you screens to its fields, in place on the `Form` objects.
  - `makeTranslator` pairs fields by position or by ref and builds the per-field translators.
  - `MakeTranslatorByShape` and `MakeTranslatorByRef` are its two entry points.
- **Response translation** (`ResponseTranslation`, `responses.dfy`). `Translate`
  resolves one recorded response through a built form translator, with the
  lenient policy: an unmapped response gives no value and no error.

Each builder is a Dafny method proved against a pure specification
function:

- `ExtractLabels` against `Labels`;
- `ExtractAnswers` against `Resolve`;
- `MakeMCTranslator` and its map-filling loop `PairUp` against `ChoiceMapping` and `Zip`;
- `MakeFieldTranslator` against `FieldTranslatorFor`;
- `FindField` against `Lookup`;
- `MakeTranslator` against `Build`.

The two helper loops `MapResponse` (`mapResponse`) and `Compare` (`compare`)
state their results directly: the Responses in order, and equality of the
two label lists.

The lemmas state the properties of those functions. `wrappers.dfy` holds the
`Option` and `Result` types, and `schema.dfy` holds the data.

Forms are objects whose `fields` sequence is updated in place. Fields,
choices, answers and translators are values. Errors are variants of
`Schema.Error`, not message strings.

`prepForms` (`forms.go:210-213`) extends both input forms' field lists in
place, and the extension remains even when construction then fails. The
model follows the code, so `MakeTranslator` states the new field lists of
both forms on every path. It also states the case where the same form is
passed twice and its thank-you screens are appended twice.

## Model

| member | source | states |
|---|---|---|
| LabelExtraction.SepRunSpec | forms.go:64 | the separator run after a dashed letter is greedy: every character in it is a blank, a Unicode dash, '.' or ')', and the character after it is not |
| LabelExtraction.SepRunUnique | forms.go:64 | a maximal run of separators of length n is exactly what SepRun measures |
| LabelExtraction.PunctRunSpec | forms.go:64 | the punctuation run after a bare letter is greedy: every character is a dash, '.' or ')', and the one after it is not |
| LabelExtraction.PunctRunUnique | forms.go:64 | a maximal punctuation run of length n is exactly what PunctRun measures |
| LabelExtraction.LineEndSpec | forms.go:64 | a line starts at the start of the text or after '\n' and ends at the next '\n' or at the end of the text, holding no '\n' |
| LabelExtraction.LineEndUnique | forms.go:64 | any position with no '\n' before it on the line, followed by '\n' or the end of the text, is where the line ends |
| LabelExtraction.MatchLineSound | forms.go:64 | every match is a marker of one of the pattern's four forms (dash with or without a space, bare letter with or without a trailing blank) at the very start of the line, followed by a non-empty value that runs to the end of the line |
| LabelExtraction.MatchLineComplete | forms.go:64 | conversely, a line that splits into a marker of one of the four forms and a non-empty value always matches, with the marker's letter: MatchLine matches exactly the lines the pattern matches |
| LabelExtraction.MatchLineGreedy | forms.go:64 | the marker's runs are greedy but leave the value at least one character: of every split of a line into a marker and a non-empty value, the match's value is the shortest, so together with MatchLineSound the match is the leftmost-first one ("- A. " gives " ", "A..." gives ".") |
| LabelExtraction.DashedSound | forms.go:64 | a dashed match is a '-' marker then the rest of the line |
| LabelExtraction.BareSound | forms.go:64 | a bare match is a letter-and-punctuation marker then the rest of the line |
| LabelExtraction.ReadOffAt | forms.go:64 | a marker followed by the rest of the line reads off that rest as the value |
| LabelExtraction.DashedMarker | forms.go:64 | '-', an optional single space, the letter and at least one separator form a marker of the first alternative |
| LabelExtraction.BareMarker | forms.go:64 | the letter, at least one punctuation character and at most one blank form a marker of the second alternative |
| LabelExtraction.DashedLineMatches | forms.go:64 | a line "-Xs…v" or "- Xs…v" with separators s yields exactly (X, v): the "- A. ", "- A.. " and "- B.) " variants read the same value |
| LabelExtraction.BareLineMatches | forms.go:64 | a line "Xp…v" with punctuation p and at most one blank yields exactly (X, v): the "A. ", "A- ", "A-\t" and "A-" variants read the same value |
| LabelExtraction.UnanchoredLineIgnored | forms.go:64 | a line that begins neither with '-' nor with a letter followed by punctuation yields nothing, so a marker in mid-line ("…live in?A. foo") or a bare "Afoo" is ignored |
| LabelExtraction.LabelsAreLineMatches | forms.go:64-66 | the answers found in a text are the matches of its lines, in text order |
| LabelExtraction.LabelsFromLines | forms.go:64-66 | scanning from any line start finds the matches of the remaining lines, in order |
| LabelExtraction.AppendLineMatch | forms.go:70-84 | one step of the scan: appending one line's match keeps "found so far + still to find = all", and after the last line gives all answers |
| LabelExtraction.ExtractLabels | forms.go:62-87 | the answers returned are exactly the matches of the title's lines, in order, with repeated letters kept |
| LabelExtraction.LinesAt | forms.go:64 | the lines of a suffix that starts a line are its first line, then the lines after the '\n' |
| LabelExtraction.MatchAllAt | forms.go:64 | the matches of a suffix that starts a line are its first line's match, then the rest's |
| LabelExtraction.LinesSplit | forms.go:64 | a '\n' ends one line and starts the next |
| LabelExtraction.OneLine | forms.go:64 | a text without '\n' is one line |
| LabelExtraction.LinesUnbroken | forms.go:64 | no line holds a '\n' |
| LabelExtraction.LineCount | forms.go:64 | a text has one line more than it has '\n' characters |
| LabelExtraction.NoNewlineInLine | forms.go:64 | a stretch without '\n' counts no '\n' |
| LabelExtraction.LabelsLineByLine | forms.go:64-66 | the answers of "p\nq" are those of line p, then those of q: matching is per line, in order, and duplicates are kept |
| LabelExtraction.LabelsOneLine | forms.go:64-66 | the answers of a one-line text are that line's match |
| LabelExtraction.MatchAllAtMostOne | forms.go:64-84 | a list of lines yields at most one answer per line |
| LabelExtraction.AtMostOnePerLine | forms.go:64-84 | a title yields at most one answer per line: at most one more than its count of '\n' |
| LabelExtraction.MatchAllWellFormed | forms.go:64-82 | every answer matched from lines without '\n' is one letter A-Z with a non-empty value without '\n' |
| LabelExtraction.LabelsWellFormed | forms.go:64-82 | every extracted answer has a single-letter A-Z Response and a non-empty Value without '\n' |
| AnswerResolution.Resolve | forms.go:111-152 | fails exactly when there are no choices (NoChoices with the field's ref), or when the first label is "A" and the Responses read off the title differ from the declared labels in length or at any position (ExtractionMismatch); on success one answer per choice with Response i the i-th label, each Value equal to its Response when the first label is not "A", and the title's answers when it is |
| AnswerResolution.ResolvedFromTitleWellFormed | forms.go:133-144 | answers read off a title are single letters with non-empty one-line values |
| AnswerResolution.ResolveIgnoresTitle | forms.go:130-150 | when the first label is not "A" the title is never read: changing it changes nothing |
| AnswerResolution.MapResponse | forms.go:89-95 | returns the Response of every answer, in order |
| AnswerResolution.Compare | forms.go:97-109 | true exactly when both label lists have the same length and agree at every position |
| AnswerResolution.ExtractAnswers | forms.go:111-152 | computes Resolve: the same answers, and the same error |
| FieldTranslation.ZipKeys | forms.go:174-178 | the positional map's keys are exactly the source Responses |
| FieldTranslation.ZipLastWins | forms.go:174-178 | a Response maps to the destination Value at the last position that carries it |
| FieldTranslation.ZipDistinct | forms.go:174-178 | with distinct source Responses, the i-th Response maps to the i-th destination Value for every i |
| FieldTranslation.PairUp | forms.go:174-178 | the map-filling loop builds the positional map |
| FieldTranslation.ChoiceMapping | forms.go:154-181 | succeeds exactly when both fields resolve and have equally many choices; a resolution failure of the source, else of the destination, is wrapped with both refs (FieldBuildFailed); the count mismatch (AnswerCountMismatch) is reported only after both resolved |
| FieldTranslation.ChoiceMappingKeys | forms.go:154-181 | a built mapping's keys are exactly the source field's declared labels; any other key is absent |
| FieldTranslation.ChoiceMappingEntry | forms.go:154-181 | the i-th source label maps to the i-th destination Value, unless a later source choice repeats the label |
| FieldTranslation.MakeMCTranslator | forms.go:154-181 | computes ChoiceMapping: the same map, and the same error |
| FieldTranslation.FieldTranslatorFor | forms.go:183-199 | an unregistered source type gives a pass-through translator with an empty mapping and never an error; "multiple_choice" gives a translating translator with the field's mapping, or that mapping's error |
| FieldTranslation.DestinationTypeIgnored | forms.go:187-188 | only the source field's type selects the builder: the destination's type plays no part |
| FieldTranslation.TranslatingMeansChoices | forms.go:183-194 | a translating field translator comes from a multiple-choice source, and its keys are that field's declared labels |
| FieldTranslation.MakeFieldTranslator | forms.go:187-199 | computes FieldTranslatorFor |
| FormTranslation.FirstRef | forms.go:201-208 | finds the first position carrying the ref, and none only when no field carries it |
| FormTranslation.Lookup | forms.go:201-208 | fails exactly when no field carries the ref, with RefNotFound naming the ref and the form's title; otherwise gives a field of the form with that ref |
| FormTranslation.LookupFindsFirst | forms.go:202-205 | the field found is the first one carrying the ref |
| FormTranslation.FindField | forms.go:201-208 | the linear scan computes Lookup |
| FormTranslation.PrepForms | forms.go:210-213 | each form's fields become its old fields followed by its thank-you screens; one form passed twice gets its screens appended twice |
| FormTranslation.Build | forms.go:215-245 | by shape, forms whose extended lengths differ fail with FormsDifferentLengths before any field is looked at |
| FormTranslation.AssembleStops | forms.go:224-242 | once a field's step fails, construction ends with that failure |
| FormTranslation.AssembleSucceedsIff | forms.go:224-242 | construction over the first n fields succeeds exactly when each of their steps does |
| FormTranslation.AssembleFirstError | forms.go:224-242 | the error reported is that of the first field, in order, whose pairing or translator fails |
| FormTranslation.AssembleKeys | forms.go:224-242 | the keys are exactly the refs of the fields processed |
| FormTranslation.AssembleEntry | forms.go:224-242 | the entry for a ref is the translator of the last field carrying it: later duplicates overwrite earlier ones |
| FormTranslation.BuildKeys | forms.go:215-245 | a built form translator's keys are exactly the refs of the extended source field list, thank-you screens included |
| FormTranslation.BuildByShapeSucceedsIff | forms.go:215-245 | by shape, construction succeeds exactly when the extended lengths agree and every field's translator with its same-position partner succeeds |
| FormTranslation.BuildByRefSucceedsIff | forms.go:215-245 | by ref, construction succeeds exactly when every source ref occurs in the destination and every field's translator with the first such field succeeds; no length check |
| FormTranslation.BuildByShapeEntry | forms.go:218-241 | by shape, field i is translated with destination field i |
| FormTranslation.BuildByRefEntry | forms.go:228-241 | by ref, a field is translated with the first destination field of the same ref, thank-you screens included |
| FormTranslation.BuildByRefMissing | forms.go:228-232 | by ref, the first source field whose ref is missing from the destination ends construction with RefNotFound naming that ref and the destination's title |
| FormTranslation.MakeTranslator | forms.go:215-245 | both forms' fields are extended by their thank-you screens on every path, failures included, and the result is Build over the extended lists |
| FormTranslation.MakeTranslatorByShape | forms.go:247-249 | makeTranslator pairing by position |
| FormTranslation.MakeTranslatorByRef | forms.go:251-253 | makeTranslator pairing by ref |
| ResponseTranslation.Translate | responses.go:13-32 | an unknown ref is an error naming it; a pass-through field returns the response unchanged; a translating field returns the mapped value, or no value and no error when the response is unmapped |
| ResponseTranslation.TranslateKnowsSourceRefs | responses.go:15-18 | after construction, Translate fails exactly for refs that no source field carries |
| ResponseTranslation.TranslateByShape | responses.go:21-31 | aligned by shape, the k-th label of a multiple-choice field translates to the Value of the k-th choice of the destination field at the same position |
| ResponseTranslation.TranslateByRef | responses.go:21-31 | aligned by ref, the k-th label translates to the Value of the k-th choice of the first destination field with the same ref |
| ResponseTranslation.TranslatePassesThrough | responses.go:21-23 | a field of any type other than multiple choice passes every response through unchanged |
| ResponseTranslation.TranslateUnknownResponse | responses.go:26-29 | a response that is none of a translated field's declared labels yields no value and no error |

## Left out

- JSON decoding, struct tags and the fields no logic reads (`Workspace`, `Logic`, choice and field ids, choice refs, `Description`) are not modelled; fields and forms are plain records.
- Go's `regexp` engine and the per-call compile at forms.go:65 are not modelled: the pattern is written out as the line predicate `MatchLine`. `\p{Pd}` is the explicit Unicode 15 dash-punctuation set.
- The defensive error branches of `ExtractLabels` (forms.go:71-76) cannot fire: every match has four groups and exactly one letter group is set. `ExtractLabels` therefore returns a plain sequence, and the error branch of `ExtractAnswers` at forms.go:135-137 is left out.
- Error message text is not modelled. Failures are variants of `Schema.Error` and `ResponseTranslation.TranslationError`, with the refs and titles the messages name.
- Resolve: the error results of `ExtractAnswers` carry no answers, while the Go code also returns a slice of N nil answers beside the error; callers never read it.
- The nil mapping of a pass-through `FieldTranslator` (forms.go:198) is modelled as an empty map, which every lookup treats the same way.
- Pointer identity of fields and translators is not modelled, since no code compares or mutates them. The one aliasing case that matters, the same form given twice to `makeTranslator`, is modelled in `PrepForms` and `MakeTranslator`.
- Strings are modelled as sequences of Unicode code points. Go strings are UTF-8 bytes that `regexp` reads rune by rune; the inputs are taken to be valid UTF-8, which JSON decoding guarantees, and invalid byte sequences are not modelled.
- Concurrency and the goroutine safety of a built translator are not modelled; `Translate` is a function, so it cannot change the translator.
