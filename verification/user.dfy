/** The authenticated user handed to the rest of the application. */
module Users {
  import opened Wrappers
  import opened Constants
  import opened Jwt

  /** `Usuario`: every field is a Java reference and may be `null`. */
  datatype User = User(
    email: Option<string>,
    nombre: Option<string>,
    apellidos: Option<string>,
    roles: Option<seq<string>>)

  /** The three text claims of a user cast without error. */
  predicate NameClaimsCastable(c: Claims)
  {
    IsTextOrAbsent(c, AttributeEmail) && IsTextOrAbsent(c, AttributeNombre) && IsTextOrAbsent(c, AttributeApellidos)
  }

  /** The value of a text claim, `null` when it is absent or not text. */
  function TextOf(c: Claims, key: string): Option<string>
  {
    if key in c.entries && c.entries[key].Text? then Some(c.entries[key].text) else None
  }

  /** `roles.contains(role)` for the `roles` claim, when that claim is a list. */
  predicate GrantsRole(c: Claims, role: string)
  {
    ListOf(c, AttributeRoles).Some? && role in ListOf(c, AttributeRoles).value
  }

  /** The value of a list claim, `null` when it is absent or not a list. */
  function ListOf(c: Claims, key: string): Option<seq<string>>
  {
    if key in c.entries && c.entries[key].TextList? then Some(c.entries[key].items) else None
  }
}
