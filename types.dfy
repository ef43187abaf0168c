/** Record shapes shared by the controllers (src/ts/types.ts) and the HTTP
    response a handler produces. */
module Types {

  datatype Option<+T> = None | Some(value: T)

  /** TUser: the identity passport keeps in the session and puts on `req.user`. */
  datatype Principal = Principal(name: string, email: string, id: int)

  /** UserType: one row of the `users` table. `user_image` is nullable in the store. */
  datatype UserRow = UserRow(
    id: int,
    userName: string,
    userEmail: string,
    userImage: Option<string>,
    userPassword: string)

  /** The identity a row yields: name, email and id, never the password hash. */
  function PrincipalOf(row: UserRow): Principal
  {
    Principal(row.userName, row.userEmail, row.id)
  }

  /** What a handler's `catch (e)` can have caught: a failed zod parse, a
      property read on `undefined`, an error raised by the store, or any
      other exception. */
  datatype Error = ValidationError | TypeError | StoreError(message: string) | Exception(message: string)

  /** Response bodies the modelled handlers send. */
  datatype Body =
    | Empty                                   // res.end()
    | StatusText(text: string)                // res.sendStatus(code)
    | PrincipalJson(user: Principal)          // res.json(req.user)
    | CreatedUserJson(name: string, email: string, image: Option<string>)
    | QueryRowsJson                           // res.json(rows...) as the store returned them
    | ErrorJson(error: Error)                 // res.json({ message: e.message })

  datatype Response = Response(status: int, body: Body)

  /** The answer every `catch` block of the controllers gives. */
  function Fail(e: Error): Response
  {
    Response(500, ErrorJson(e))
  }
}
