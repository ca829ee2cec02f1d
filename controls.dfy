/**
 * The add-row form: five text fields, each with a value and a placeholder, and the Add
 * action that turns them into one seven-cell row.
 */
module Controls {
  import opened Wrappers

  /** One input of the form. */
  datatype Field = Field(value: string, placeholder: string)

  /** The names of the five inputs, in the form's order. */
  datatype FieldName = Style | Quantity | Color | Size | BoxNumber

  /** The form's draft. */
  datatype Draft = Draft(style: Field, quantity: Field, color: Field, size: Field, boxNumber: Field)

  /** The `email` prop's default; the application does not pass one. */
  const DefaultEmail: string := "email"

  /** The field of the draft with the given name. */
  function Get(d: Draft, f: FieldName): Field
  {
    match f
    case Style => d.style
    case Quantity => d.quantity
    case Color => d.color
    case Size => d.size
    case BoxNumber => d.boxNumber
  }

  /** The fixed placeholder text of each field. */
  function Placeholder(f: FieldName): string
  {
    match f
    case Style => "Select Style Code"
    case Quantity => "Select Quantity"
    case Color => "Select Color"
    case Size => "Select Size"
    case BoxNumber => "Box Number"
  }

  /** The initial draft: every value empty, every field with its placeholder. */
  function InitialDraft(): (d: Draft)
    ensures forall f :: Get(d, f) == Field("", Placeholder(f))
  {
    Draft(Field("", "Select Style Code"), Field("", "Select Quantity"), Field("", "Select Color"),
          Field("", "Select Size"), Field("", "Box Number"))
  }

  /** `handleChange(field, value)`: only that field's value changes. */
  function HandleChange(d: Draft, f: FieldName, v: string): (d': Draft)
    ensures Get(d', f) == Field(v, Get(d, f).placeholder)
    ensures forall g :: g != f ==> Get(d', g) == Get(d, g)
  {
    match f
    case Style => d.(style := d.style.(value := v))
    case Quantity => d.(quantity := d.quantity.(value := v))
    case Color => d.(color := d.color.(value := v))
    case Size => d.(size := d.size.(value := v))
    case BoxNumber => d.(boxNumber := d.boxNumber.(value := v))
  }

  /** The guard of `add`: some field's value is not the empty string. */
  predicate HasValue(d: Draft)
    ensures HasValue(d) <==> Cleared(d) != d
  {
    d.style.value != "" || d.quantity.value != "" || d.color.value != "" ||
    d.size.value != "" || d.boxNumber.value != ""
  }

  /** The guard is `some` over all five fields. */
  lemma HasValueIsSome(d: Draft)
    ensures HasValue(d) <==> exists f :: Get(d, f).value != ""
  {
    if d.style.value != "" {
      assert Get(d, Style).value != "";
    } else if d.quantity.value != "" {
      assert Get(d, Quantity).value != "";
    } else if d.color.value != "" {
      assert Get(d, Color).value != "";
    } else if d.size.value != "" {
      assert Get(d, Size).value != "";
    } else if d.boxNumber.value != "" {
      assert Get(d, BoxNumber).value != "";
    }
  }

  /** Each field with its value cleared and its placeholder kept. */
  function Cleared(d: Draft): (d': Draft)
    ensures forall f :: Get(d', f) == Field("", Get(d, f).placeholder)
  {
    Draft(d.style.(value := ""), d.quantity.(value := ""), d.color.(value := ""),
          d.size.(value := ""), d.boxNumber.(value := ""))
  }

  /**
   * `add`: with every value empty nothing happens; otherwise `onAdd` receives the row
   * timestamp, email, style, quantity, color, size, box number, and the form is cleared.
   */
  function Add(d: Draft, timestamp: string, email: string): (res: (Draft, Option<seq<string>>))
    ensures !HasValue(d) ==> res == (d, None)
    ensures HasValue(d) ==> res.1.Some? && |res.1.value| == 7
    ensures HasValue(d) ==>
              res.1.value[0] == timestamp && res.1.value[1] == email &&
              res.1.value[2..] == [d.style.value, d.quantity.value, d.color.value, d.size.value, d.boxNumber.value]
    ensures HasValue(d) ==> forall f :: Get(res.0, f) == Field("", Get(d, f).placeholder)
  {
    if HasValue(d) then
      (Cleared(d), Some([timestamp, email, d.style.value, d.quantity.value, d.color.value,
                          d.size.value, d.boxNumber.value]))
    else
      (d, None)
  }

  /** After a successful add, pressing Add again does nothing. */
  lemma AddTwiceAddsOnce(d: Draft, t1: string, t2: string, email: string)
    requires HasValue(d)
    ensures var (d', _) := Add(d, t1, email);
            Add(d', t2, email) == (d', None)
  {
    var (d', _) := Add(d, t1, email);
    assert forall f :: Get(d', f).value == "";
  }

  /** Typing a non-empty value into any field of a fresh form enables Add, and the row carries it. */
  lemma TypedValueIsAdded(f: FieldName, v: string, timestamp: string)
    requires v != ""
    ensures var d := HandleChange(InitialDraft(), f, v);
            var (_, row) := Add(d, timestamp, DefaultEmail);
            row.Some? && v in row.value[2..] && row.value[1] == "email"
  {
    var d := HandleChange(InitialDraft(), f, v);
    assert Get(d, f).value == v;
  }
}
