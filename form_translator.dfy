/**
 * Alignment of two whole forms (findField, prepForms, makeTranslator and its
 * two entry points, forms.go:201-253).
 *
 * Both forms first have their thank-you screens appended to their fields.
 * Each source field is then paired with a destination field, either at the
 * same position ("by shape") or by equal ref ("by ref"), and a field
 * translator is built for the pair. The first failure, in field order, ends
 * the construction.
 */
module FormTranslation {
  import opened Wrappers
  import opened Schema
  import opened FieldTranslation

  /** The position of the first field at or after `from` that carries `ref`. */
  function FirstRef(fields: seq<Field>, ref: string, from: nat): (r: Option<nat>)
    requires from <= |fields|
    ensures r.Some? ==>
      && from <= r.value < |fields|
      && fields[r.value].ref == ref
      && forall j | from <= j < r.value :: fields[j].ref != ref
    ensures r.None? ==> forall j | from <= j < |fields| :: fields[j].ref != ref
    decreases |fields| - from
  {
    if from == |fields| then None
    else if fields[from].ref == ref then Some(from)
    else FirstRef(fields, ref, from + 1)
  }

  /** What findField computes: the first field with the ref, or an error naming the form. */
  function Lookup(ref: string, fields: seq<Field>, title: string): (r: Result<Field, Error>)
    ensures r.Failure? <==> forall j | 0 <= j < |fields| :: fields[j].ref != ref
    ensures r.Failure? ==> r.error == RefNotFound(ref, title)
    ensures r.Success? ==> r.value in fields && r.value.ref == ref
  {
    match FirstRef(fields, ref, 0)
    case None => Failure(RefNotFound(ref, title))
    case Some(i) => Success(fields[i])
  }

  /** The field found is the first one carrying the ref. */
  lemma LookupFindsFirst(ref: string, fields: seq<Field>, title: string, i: nat)
    requires i < |fields| && fields[i].ref == ref
    requires forall j | 0 <= j < i :: fields[j].ref != ref
    ensures Lookup(ref, fields, title) == Success(fields[i])
  {
  }

  /** findField (forms.go:201-208): a linear scan of the form's fields. */
  method FindField(ref: string, form: Form) returns (r: Result<Field, Error>)
    ensures r == Lookup(ref, form.fields, form.title)
  {
    var fields := form.fields;
    for i := 0 to |fields|
      invariant FirstRef(fields, ref, i) == FirstRef(fields, ref, 0)
    {
      if fields[i].ref == ref {
        return Success(fields[i]);
      }
    }
    return Failure(RefNotFound(ref, form.title));
  }

  /**
   * prepForms (forms.go:210-213): each form's thank-you screens are appended
   * to its fields. When both arguments are the same form, its screens are
   * appended twice.
   */
  method PrepForms(a: Form, b: Form)
    modifies a`fields, b`fields
    ensures a != b ==> a.fields == old(a.fields) + old(a.thankYouScreens)
    ensures a != b ==> b.fields == old(b.fields) + old(b.thankYouScreens)
    ensures a == b ==> a.fields == old(a.fields) + old(a.thankYouScreens) + old(a.thankYouScreens)
  {
    a.fields := a.fields + a.thankYouScreens;
    b.fields := b.fields + b.thankYouScreens;
  }

  /** The destination field paired with the i-th source field. */
  function Partner(src: seq<Field>, dst: seq<Field>, dstTitle: string, byRef: bool, i: nat): Result<Field, Error>
    requires i < |src| && (!byRef ==> |src| == |dst|)
  {
    if byRef then Lookup(src[i].ref, dst, dstTitle) else Success(dst[i])
  }

  /** The field translator built for the i-th source field, or the error that stops construction there. */
  function Step(src: seq<Field>, dst: seq<Field>, dstTitle: string, byRef: bool, i: nat): Result<FieldTranslator, Error>
    requires i < |src| && (!byRef ==> |src| == |dst|)
  {
    var d :- Partner(src, dst, dstTitle, byRef, i);
    FieldTranslatorFor(src[i], d)
  }

  /** The translator map after the first n source fields, each keyed by its ref, a later field overriding. */
  function Assemble(src: seq<Field>, dst: seq<Field>, dstTitle: string, byRef: bool, n: nat): Result<map<string, FieldTranslator>, Error>
    requires n <= |src| && (!byRef ==> |src| == |dst|)
  {
    if n == 0 then Success(map[])
    else
      var m :- Assemble(src, dst, dstTitle, byRef, n - 1);
      var ft :- Step(src, dst, dstTitle, byRef, n - 1);
      Success(m[src[n - 1].ref := ft])
  }

  /** What makeTranslator computes from the prepared field lists. */
  function Build(src: seq<Field>, dst: seq<Field>, dstTitle: string, byRef: bool): (r: Result<FormTranslator, Error>)
    ensures !byRef && |src| != |dst| ==> r == Failure(FormsDifferentLengths)
  {
    if !byRef && |src| != |dst| then Failure(FormsDifferentLengths)
    else
      var m :- Assemble(src, dst, dstTitle, byRef, |src|);
      Success(FormTranslator(m))
  }

  /** A failure after k fields is the failure of the whole construction. */
  lemma {:induction false} AssembleStops(src: seq<Field>, dst: seq<Field>, dstTitle: string, byRef: bool, k: nat, n: nat)
    requires k <= n <= |src| && (!byRef ==> |src| == |dst|)
    requires Assemble(src, dst, dstTitle, byRef, k).Failure?
    ensures Assemble(src, dst, dstTitle, byRef, n) == Assemble(src, dst, dstTitle, byRef, k)
    decreases n
  {
    if k < n {
      AssembleStops(src, dst, dstTitle, byRef, k, n - 1);
    }
  }

  /** Construction succeeds exactly when every field's step does. */
  lemma {:induction false} AssembleSucceedsIff(src: seq<Field>, dst: seq<Field>, dstTitle: string, byRef: bool, n: nat)
    requires n <= |src| && (!byRef ==> |src| == |dst|)
    ensures Assemble(src, dst, dstTitle, byRef, n).Success? <==>
      forall i | 0 <= i < n :: Step(src, dst, dstTitle, byRef, i).Success?
    decreases n
  {
    if n > 0 {
      AssembleSucceedsIff(src, dst, dstTitle, byRef, n - 1);
    }
  }

  /** The error reported is that of the first field whose step fails. */
  lemma {:induction false} AssembleFirstError(src: seq<Field>, dst: seq<Field>, dstTitle: string, byRef: bool, n: nat, i: nat)
    requires i < n <= |src| && (!byRef ==> |src| == |dst|)
    requires forall j | 0 <= j < i :: Step(src, dst, dstTitle, byRef, j).Success?
    requires Step(src, dst, dstTitle, byRef, i).Failure?
    ensures Assemble(src, dst, dstTitle, byRef, n) == Failure(Step(src, dst, dstTitle, byRef, i).error)
  {
    AssembleSucceedsIff(src, dst, dstTitle, byRef, i);
    AssembleStops(src, dst, dstTitle, byRef, i + 1, n);
  }

  /** Every source ref is a key, and nothing else is. */
  lemma {:induction false} AssembleKeys(src: seq<Field>, dst: seq<Field>, dstTitle: string, byRef: bool, n: nat)
    requires n <= |src| && (!byRef ==> |src| == |dst|)
    requires Assemble(src, dst, dstTitle, byRef, n).Success?
    ensures Assemble(src, dst, dstTitle, byRef, n).value.Keys == set j | 0 <= j < n :: src[j].ref
    decreases n
  {
    if n > 0 {
      AssembleKeys(src, dst, dstTitle, byRef, n - 1);
    }
  }

  /** The entry for a ref is the step of the last source field carrying it. */
  lemma {:induction false} AssembleEntry(src: seq<Field>, dst: seq<Field>, dstTitle: string, byRef: bool, n: nat, i: nat)
    requires i < n <= |src| && (!byRef ==> |src| == |dst|)
    requires Assemble(src, dst, dstTitle, byRef, n).Success?
    requires forall j | i < j < n :: src[j].ref != src[i].ref
    ensures Step(src, dst, dstTitle, byRef, i).Success?
    ensures src[i].ref in Assemble(src, dst, dstTitle, byRef, n).value
    ensures Assemble(src, dst, dstTitle, byRef, n).value[src[i].ref] == Step(src, dst, dstTitle, byRef, i).value
    decreases n
  {
    if i < n - 1 {
      AssembleEntry(src, dst, dstTitle, byRef, n - 1, i);
    }
  }

  /** A built translator has one entry per source ref. */
  lemma BuildKeys(src: seq<Field>, dst: seq<Field>, dstTitle: string, byRef: bool)
    requires Build(src, dst, dstTitle, byRef).Success?
    ensures Build(src, dst, dstTitle, byRef).value.fields.Keys == set f | f in src :: f.ref
  {
    AssembleKeys(src, dst, dstTitle, byRef, |src|);
    forall f | f in src
      ensures f.ref in set j | 0 <= j < |src| :: src[j].ref
    {
      var j :| 0 <= j < |src| && src[j] == f;
    }
  }

  /**
   * By shape, construction succeeds exactly when the forms have equal
   * lengths and every field pairs with the one at its position.
   */
  lemma BuildByShapeSucceedsIff(src: seq<Field>, dst: seq<Field>, title: string)
    ensures Build(src, dst, title, false).Success? <==>
      && |src| == |dst|
      && forall i | 0 <= i < |src| :: FieldTranslatorFor(src[i], dst[i]).Success?
  {
    if |src| == |dst| {
      AssembleSucceedsIff(src, dst, title, false, |src|);
      forall i | 0 <= i < |src|
        ensures Step(src, dst, title, false, i) == FieldTranslatorFor(src[i], dst[i])
      {
      }
    }
  }

  /**
   * By ref, construction succeeds exactly when every source ref occurs in
   * the destination and every field pairs with the first such field.
   */
  lemma BuildByRefSucceedsIff(src: seq<Field>, dst: seq<Field>, title: string)
    ensures Build(src, dst, title, true).Success? <==>
      forall i | 0 <= i < |src| ::
        && Lookup(src[i].ref, dst, title).Success?
        && FieldTranslatorFor(src[i], Lookup(src[i].ref, dst, title).value).Success?
  {
    AssembleSucceedsIff(src, dst, title, true, |src|);
    forall i | 0 <= i < |src|
      ensures Step(src, dst, title, true, i).Success? <==>
        && Lookup(src[i].ref, dst, title).Success?
        && FieldTranslatorFor(src[i], Lookup(src[i].ref, dst, title).value).Success?
    {
    }
  }

  /** By shape, a field is translated as it pairs with the field at its position. */
  lemma BuildByShapeEntry(src: seq<Field>, dst: seq<Field>, title: string, i: nat)
    requires Build(src, dst, title, false).Success? && i < |src|
    requires forall j | i < j < |src| :: src[j].ref != src[i].ref
    ensures |dst| == |src|
    ensures src[i].ref in Build(src, dst, title, false).value.fields
    ensures FieldTranslatorFor(src[i], dst[i]).Success?
    ensures Build(src, dst, title, false).value.fields[src[i].ref] == FieldTranslatorFor(src[i], dst[i]).value
  {
    AssembleEntry(src, dst, title, false, |src|, i);
  }

  /** By ref, a field is translated as it pairs with the first destination field of the same ref. */
  lemma BuildByRefEntry(src: seq<Field>, dst: seq<Field>, title: string, i: nat, k: nat)
    requires Build(src, dst, title, true).Success? && i < |src|
    requires forall j | i < j < |src| :: src[j].ref != src[i].ref
    requires k < |dst| && dst[k].ref == src[i].ref
    requires forall j | 0 <= j < k :: dst[j].ref != src[i].ref
    ensures src[i].ref in Build(src, dst, title, true).value.fields
    ensures FieldTranslatorFor(src[i], dst[k]).Success?
    ensures Build(src, dst, title, true).value.fields[src[i].ref] == FieldTranslatorFor(src[i], dst[k]).value
  {
    AssembleEntry(src, dst, title, true, |src|, i);
    LookupFindsFirst(src[i].ref, dst, title, k);
  }

  /**
   * By ref, the first source field whose ref is missing from the destination
   * ends construction with that ref and the destination's title, provided
   * every earlier field paired successfully.
   */
  lemma BuildByRefMissing(src: seq<Field>, dst: seq<Field>, title: string, i: nat)
    requires i < |src|
    requires forall j | 0 <= j < i :: Step(src, dst, title, true, j).Success?
    requires forall f | f in dst :: f.ref != src[i].ref
    ensures Build(src, dst, title, true) == Failure(RefNotFound(src[i].ref, title))
  {
    assert Lookup(src[i].ref, dst, title).Failure?;
    AssembleFirstError(src, dst, title, true, |src|, i);
  }

  /**
   * makeTranslator (forms.go:215-245): the forms are prepared in place,
   * then every source field is paired and translated in order.
   */
  method MakeTranslator(form: Form, destForm: Form, byRef: bool) returns (r: Result<FormTranslator, Error>)
    modifies form`fields, destForm`fields
    ensures form != destForm ==> form.fields == old(form.fields) + old(form.thankYouScreens)
    ensures form != destForm ==> destForm.fields == old(destForm.fields) + old(destForm.thankYouScreens)
    ensures form == destForm ==> form.fields == old(form.fields) + old(form.thankYouScreens) + old(form.thankYouScreens)
    ensures r == Build(form.fields, destForm.fields, destForm.title, byRef)
  {
    PrepForms(form, destForm);
    var src, dst, title := form.fields, destForm.fields, destForm.title;
    if !byRef && |src| != |dst| {
      return Failure(FormsDifferentLengths);
    }
    var m: map<string, FieldTranslator> := map[];
    for i := 0 to |src|
      invariant form.fields == src && destForm.fields == dst && destForm.title == title
      invariant Assemble(src, dst, title, byRef, i) == Success(m)
    {
      var df: Field;
      if byRef {
        var found := FindField(src[i].ref, destForm);
        if found.Failure? {
          AssembleStops(src, dst, title, byRef, i + 1, |src|);
          return Failure(found.error);
        }
        df := found.value;
      } else {
        df := dst[i];
      }
      var ft := MakeFieldTranslator(src[i], df);
      if ft.Failure? {
        AssembleStops(src, dst, title, byRef, i + 1, |src|);
        return Failure(ft.error);
      }
      m := m[src[i].ref := ft.value];
    }
    return Success(FormTranslator(m));
  }

  /** MakeTranslatorByShape (forms.go:247-249): fields paired by position. */
  method MakeTranslatorByShape(form: Form, destForm: Form) returns (r: Result<FormTranslator, Error>)
    modifies form`fields, destForm`fields
    ensures form != destForm ==> form.fields == old(form.fields) + old(form.thankYouScreens)
    ensures form != destForm ==> destForm.fields == old(destForm.fields) + old(destForm.thankYouScreens)
    ensures form == destForm ==> form.fields == old(form.fields) + old(form.thankYouScreens) + old(form.thankYouScreens)
    ensures r == Build(form.fields, destForm.fields, destForm.title, false)
  {
    r := MakeTranslator(form, destForm, false);
  }

  /** MakeTranslatorByRef (forms.go:251-253): fields paired by ref. */
  method MakeTranslatorByRef(form: Form, destForm: Form) returns (r: Result<FormTranslator, Error>)
    modifies form`fields, destForm`fields
    ensures form != destForm ==> form.fields == old(form.fields) + old(form.thankYouScreens)
    ensures form != destForm ==> destForm.fields == old(destForm.fields) + old(destForm.thankYouScreens)
    ensures form == destForm ==> form.fields == old(form.fields) + old(form.thankYouScreens) + old(form.thankYouScreens)
    ensures r == Build(form.fields, destForm.fields, destForm.title, true)
  {
    r := MakeTranslator(form, destForm, true);
  }
}
