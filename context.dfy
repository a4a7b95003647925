/** `mask_customer_context`: the phone and email fields of a customer record are masked
    one after the other, and their placeholder tables merged with `dict.update`. */
module ContextMasking {
  import opened Wrappers
  import opened Text
  import opened Table
  import opened Masking
  import opened Records

  /** What `re.findall` raises when the value to scan is not text. */
  const NotTextError := TypeError("expected string or bytes-like object")

  /** Field `k` is present but does not hold text. */
  predicate NotText(r: Record, k: string)
  {
    FieldOf(r, k).Some? && !FieldOf(r, k).value.Str?
  }

  /** The table `mask_text` gives for text field `k`; none when the field is absent. */
  function FieldTable(r: Record, k: string): (t: Table)
    ensures DistinctKeys(t)
  {
    match FieldOf(r, k)
    case Some(Str(s)) => Mask(s).1
    case _ => []
  }

  /** Text field `k` after masking; any other field as it was. */
  function MaskedField(r: Record, k: string): Option<Value>
  {
    match FieldOf(r, k)
    case Some(Str(s)) => Some(Str(Mask(s).0))
    case other => other
  }

  /** What `mask_customer_context(context)` returns: a copy of the record whose `phone` and
      `email` fields, when present, are masked, with the two tables merged; or the error raised
      for a field that is present but not text. Only those two fields change, and no field is
      added or removed. */
  function MaskContext(context: Record): (r: Result<(Record, Table), PyError>)
    ensures r.Err? <==> NotText(context, "phone") || NotText(context, "email")
    ensures r.Err? ==> r.error == NotTextError
    ensures r.Ok? ==> Names(r.value.0) == Names(context)
    ensures r.Ok? ==> forall k :: k != "phone" && k != "email" ==>
                        FieldOf(r.value.0, k) == FieldOf(context, k)
    ensures r.Ok? ==> FieldOf(r.value.0, "phone") == MaskedField(context, "phone")
    ensures r.Ok? ==> FieldOf(r.value.0, "email") == MaskedField(context, "email")
    ensures r.Ok? ==> DistinctKeys(r.value.1)
  {
    if NotText(context, "phone") || NotText(context, "email") then Err(NotTextError)
    else
      var afterPhone := if FieldOf(context, "phone").Some?
                        then SetField(context, "phone", MaskedField(context, "phone").value)
                        else context;
      var masked := if FieldOf(context, "email").Some?
                    then SetField(afterPhone, "email", MaskedField(context, "email").value)
                    else afterPhone;
      Ok((masked, Update(Update([], FieldTable(context, "phone")), FieldTable(context, "email"))))
  }

  /** The merged table: a placeholder both fields' tables hold takes the email field's
      value, since the email table is merged last. */
  lemma ContextTable(context: Record)
    requires MaskContext(context).Ok?
    ensures forall k :: Get(MaskContext(context).value.1, k) ==
              if HasKey(FieldTable(context, "email"), k) then Get(FieldTable(context, "email"), k)
              else Get(FieldTable(context, "phone"), k)
  {
    var phoneTable, emailTable := FieldTable(context, "phone"), FieldTable(context, "email");
    UpdateIntoEmpty([], phoneTable);
    assert [] + phoneTable == phoneTable;
    forall k {
      UpdateGet(phoneTable, emailTable, k);
    }
  }

  /** `mask_customer_context`, as the original copies the record and assigns its fields. */
  method MaskCustomerContext(context: Record) returns (r: Result<(Record, Table), PyError>)
    ensures r == MaskContext(context)
  {
    var masked := context;
    var all: Table := [];
    var phone := FieldOf(masked, "phone");
    if phone.Some? {
      if !phone.value.Str? {
        return Err(NotTextError);
      }
      var maskedPhone, phoneMapping := MaskText(phone.value.s);
      masked := SetField(masked, "phone", Str(maskedPhone));
      all := Update(all, phoneMapping);
    }
    var email := FieldOf(masked, "email");
    if email.Some? {
      if !email.value.Str? {
        return Err(NotTextError);
      }
      var maskedEmail, emailMapping := MaskText(email.value.s);
      masked := SetField(masked, "email", Str(maskedEmail));
      all := Update(all, emailMapping);
    }
    r := Ok((masked, all));
  }
}
