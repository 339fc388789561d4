/** Shared vocabulary of the contact-form path: the four submitted fields,
    used alike by the browser form, the JSON payload and the validated
    submission. */
module Common {

  datatype Option<+T> = None | Some(value: T)

  /** The four fields of a contact submission, in form order. */
  datatype FieldName = Name | Email | Subject | Message

  /** A record holding one value per field. The browser form holds strings,
      the request payload holds JSON values. */
  datatype Fields<T> = Fields(name: T, email: T, subject: T, message: T)

  function Get<T>(r: Fields<T>, f: FieldName): T
  {
    match f
    case Name => r.name
    case Email => r.email
    case Subject => r.subject
    case Message => r.message
  }
}
