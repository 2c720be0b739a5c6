/** The contact form: four text inputs bound to one record, each keystroke
    replacing the field named by the input, and a submit that clears them all. */
module Contact {
  /** The `name` attributes of the form's inputs. */
  datatype Field = Name | Email | Subject | Message

  /** `formData`. */
  datatype FormData = FormData(name: string, email: string, subject: string, message: string)

  /** The empty form. */
  const Blank := FormData("", "", "", "")

  /** The field an input named `f` reads. */
  function Get(d: FormData, f: Field): string {
    match f
    case Name => d.name
    case Email => d.email
    case Subject => d.subject
    case Message => d.message
  }

  /** `{...formData, [name]: value}`: the record with the named field replaced and
      every other field kept. */
  function Set(d: FormData, f: Field, v: string): (r: FormData)
    ensures Get(r, f) == v
    ensures forall g :: g != f ==> Get(r, g) == Get(d, g)
  {
    match f
    case Name => d.(name := v)
    case Email => d.(email := v)
    case Subject => d.(subject := v)
    case Message => d.(message := v)
  }

  /** A record is determined by its four fields. */
  lemma FieldsDetermine(a: FormData, b: FormData)
    requires forall f :: Get(a, f) == Get(b, f)
    ensures a == b
  {
    assert Get(a, Name) == Get(b, Name) && Get(a, Email) == Get(b, Email);
    assert Get(a, Subject) == Get(b, Subject) && Get(a, Message) == Get(b, Message);
  }

  /** Every field of the empty form is empty. */
  lemma BlankIsEmpty()
    ensures forall f :: Get(Blank, f) == ""
  {
  }

  /** The later of two edits to one field wins. */
  lemma SetTwice(d: FormData, f: Field, a: string, b: string)
    ensures Set(Set(d, f, a), f, b) == Set(d, f, b)
  {
    FieldsDetermine(Set(Set(d, f, a), f, b), Set(d, f, b));
  }

  /** Edits to different fields do not interfere, in either order. */
  lemma SetCommutes(d: FormData, f: Field, g: Field, a: string, b: string)
    requires f != g
    ensures Set(Set(d, f, a), g, b) == Set(Set(d, g, b), f, a)
  {
    FieldsDetermine(Set(Set(d, f, a), g, b), Set(Set(d, g, b), f, a));
  }

  /** Writing a field's own value back changes nothing. */
  lemma SetUnchanged(d: FormData, f: Field)
    ensures Set(d, f, Get(d, f)) == d
  {
    FieldsDetermine(Set(d, f, Get(d, f)), d);
  }

  class ContactForm {
    var formData: FormData

    /** Every field starts empty. */
    constructor()
      ensures formData == Blank
    {
      formData := Blank;
    }

    /** `handleInputChange`: the input named `f` now holds `value`, and every other
        field is what it was. */
    method HandleInputChange(f: Field, value: string)
      modifies this
      ensures formData == Set(old(formData), f, value)
      ensures Get(formData, f) == value
      ensures forall g :: g != f ==> Get(formData, g) == Get(old(formData), g)
    {
      formData := Set(formData, f, value);
    }

    /** `handleSubmit`: whatever was typed, the form is empty afterwards. */
    method HandleSubmit()
      modifies this
      ensures formData == Blank
      ensures forall f :: Get(formData, f) == ""
    {
      formData := Blank;
    }
  }

  /** Typing into each of the four inputs fills the form with exactly what was
      typed, whatever it held before: no edit disturbs another field. */
  method FillIn(form: ContactForm, name: string, email: string, subject: string, message: string)
    modifies form
    ensures form.formData == FormData(name, email, subject, message)
  {
    form.HandleInputChange(Name, name);
    form.HandleInputChange(Email, email);
    form.HandleInputChange(Subject, subject);
    form.HandleInputChange(Message, message);
    FieldsDetermine(form.formData, FormData(name, email, subject, message));
  }
}
