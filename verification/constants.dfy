/** The constants of `BaseServerConstants` that the authorization core reads. */
module Constants {

  /** Error code of a generic exception. */
  const ErrGenericExceptionCode: int := 0

  /** Error code raised while obtaining the public key; the role check reuses it. */
  const ErrGettingPublicKey: int := 1

  /** Error code raised while obtaining the personalised (custom) token. */
  const ErrGettingPersonalizedTokenJwt: int := 2

  /** Error code of the resources handler. */
  const ExcErrCodeResourcesHandler: int := 3

  /** Claim keys of the users collection. */
  const AttributeEmail: string := "email"
  const AttributeNombre: string := "nombre"
  const AttributeApellidos: string := "apellidos"
  const AttributeRoles: string := "roles"

  /** The roles the platform hands out. */
  const RoleAdministrador: string := "ADMINISTRADOR"
  const RoleProfesor: string := "PROFESOR"
  const RoleDireccion: string := "DIRECCION"
  const RoleClienteImpresora: string := "CLIENTE_IMPRESORA"

  /** Name of the request header that carries the service identity. */
  const FirebaseUid: string := "uid"
}
