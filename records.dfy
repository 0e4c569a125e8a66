/** Values shared by the admin forms and the admin action of the bots configuration screens. */
module Records {

  datatype Option<T> = None | Some(value: T)

  type PartnerId = string
  type ChannelId = string

  /** Why a form's clean step raised a ValidationError. */
  datatype Violation =
    | GroupInGroup                       // a partner that is a group is itself in a group
    | ChannelNeedsTypes                  // a route reading from a channel lacks editype or messagetype
    | MissingReference(ruletype: string) // a confirmrule lacks the reference its ruletype names
    | DuplicateTranslate                 // the five-field translate combination already exists

  /** What a form's clean() does: hand the cleaned data back, or raise a ValidationError. */
  datatype Cleaned<D> = Accepted(data: D) | Rejected(violation: Violation)

  /** A stored row of a configuration table: its primary key, its active flag and its other fields. */
  datatype Row<D> = Row(pk: nat, active: bool, fields: D)

  /** Python truthiness of a text field: only the empty string is false. */
  predicate Filled(s: string)
  {
    s != ""
  }
}
