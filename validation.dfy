/** The request-body schemas of the backend, as validity functions: each one
    either rejects a body (None) or returns the parsed, typed data (Some).
    Keys a schema does not declare are dropped by parsing, as zod does. */
module Validation {
  import opened Common

  /** One field of a JSON request body as a schema sees it: missing, present
      with a value of the expected JSON type, or present with any other value
      (a number, `null`, an object). */
  datatype Field<T> = Absent | Given(value: T) | Mistyped

  /** The task status enumeration. */
  datatype Status = PENDING | IN_PROGRESS | COMPLETED

  /** The wire spelling of a status. */
  function StatusName(s: Status): string
  {
    match s
    case PENDING => "PENDING"
    case IN_PROGRESS => "IN_PROGRESS"
    case COMPLETED => "COMPLETED"
  }

  /** `z.enum(['PENDING', 'IN_PROGRESS', 'COMPLETED'])` on a string: accepts
      exactly the three spellings, case-sensitively. */
  function ParseStatus(name: string): (r: Option<Status>)
    ensures r.Some? ==> StatusName(r.value) == name
    ensures r.None? ==> forall s: Status :: StatusName(s) != name
  {
    if name == "PENDING" then Some(PENDING)
    else if name == "IN_PROGRESS" then Some(IN_PROGRESS)
    else if name == "COMPLETED" then Some(COMPLETED)
    else None
  }

  /** Every status survives being written out and parsed back. */
  lemma StatusNameRoundTrip(s: Status)
    ensures ParseStatus(StatusName(s)) == Some(s)
  {
  }

  // ---------------------------------------------------------------------
  // Field combinators

  /** `z.string().min(n)` on a required field. */
  function RequiredString(f: Field<string>, minLength: nat): (r: Option<string>)
    ensures r.Some? <==> f.Given? && |f.value| >= minLength
    ensures r.Some? ==> r.value == f.value
  {
    match f
    case Given(s) => if |s| >= minLength then Some(s) else None
    case _ => None
  }

  /** `z.string().min(n).optional()`: the outer None rejects the body, the
      inner one records that the field was left out. */
  function OptionalString(f: Field<string>, minLength: nat): (r: Option<Option<string>>)
    ensures r == Some(None) <==> f.Absent?
    ensures r.None? <==> f.Mistyped? || (f.Given? && |f.value| < minLength)
    ensures r.Some? && r.value.Some? ==> f == Given(r.value.value)
  {
    match f
    case Absent => Some(None)
    case Mistyped => None
    case Given(s) => if |s| >= minLength then Some(Some(s)) else None
  }

  /** `z.enum([...]).optional()` on the status field. */
  function OptionalStatus(f: Field<string>): (r: Option<Option<Status>>)
    ensures r == Some(None) <==> f.Absent?
    ensures r.Some? && r.value.Some? ==> f == Given(StatusName(r.value.value))
    ensures f.Given? && ParseStatus(f.value).Some? ==> r == Some(ParseStatus(f.value))
  {
    match f
    case Absent => Some(None)
    case Mistyped => None
    case Given(s) =>
      match ParseStatus(s)
      case Some(st) => Some(Some(st))
      case None => None
  }

  /** `z.string().email()`; the address syntax itself is the `isEmail` test
      the caller supplies. */
  function EmailField(f: Field<string>, isEmail: string -> bool): (r: Option<string>)
    ensures r.Some? <==> f.Given? && isEmail(f.value)
    ensures r.Some? ==> r.value == f.value
  {
    match f
    case Given(s) => if isEmail(s) then Some(s) else None
    case _ => None
  }

  // ---------------------------------------------------------------------
  // Authentication bodies

  /** A body `{ email, password }` as received. */
  datatype CredentialsBody = CredentialsBody(email: Field<string>, password: Field<string>)

  /** The parsed credentials. */
  datatype Credentials = Credentials(email: string, password: string)

  /** The shortest password `register` accepts. */
  const MinPasswordLength: nat := 6

  /** `registerSchema`. */
  function ParseRegister(body: CredentialsBody, isEmail: string -> bool): (r: Option<Credentials>)
    ensures r.Some? ==> isEmail(r.value.email) && |r.value.password| >= MinPasswordLength
    ensures r.Some? ==> body == CredentialsBody(Given(r.value.email), Given(r.value.password))
  {
    match (EmailField(body.email, isEmail), RequiredString(body.password, MinPasswordLength))
    case (Some(e), Some(p)) => Some(Credentials(e, p))
    case _ => None
  }

  /** `loginSchema`: the same shape, any password string. */
  function ParseLogin(body: CredentialsBody, isEmail: string -> bool): (r: Option<Credentials>)
    ensures r.Some? ==> isEmail(r.value.email)
    ensures r.Some? ==> body == CredentialsBody(Given(r.value.email), Given(r.value.password))
  {
    match (EmailField(body.email, isEmail), RequiredString(body.password, 0))
    case (Some(e), Some(p)) => Some(Credentials(e, p))
    case _ => None
  }

  /** Register accepts exactly the string pairs with a valid email and a
      password of at least six characters. */
  lemma RegisterAcceptance(email: string, password: string, isEmail: string -> bool)
    ensures ParseRegister(CredentialsBody(Given(email), Given(password)), isEmail).Some?
        <==> isEmail(email) && |password| >= MinPasswordLength
  {
  }

  /** Login accepts any password string, the empty one included, as long as
      the email is valid; a body that passes register passes login with the
      same credentials. */
  lemma LoginAcceptsAnyPassword(body: CredentialsBody, isEmail: string -> bool)
    ensures body.email.Given? && isEmail(body.email.value) && body.password.Given?
        ==> ParseLogin(body, isEmail) == Some(Credentials(body.email.value, body.password.value))
    ensures ParseRegister(body, isEmail).Some? ==> ParseLogin(body, isEmail) == ParseRegister(body, isEmail)
  {
  }

  /** A body `{ refreshToken }`; the token text is left abstract. */
  datatype RefreshBody<T> = RefreshBody(refreshToken: Field<T>)

  /** `refreshSchema`: only the presence of a string is checked. */
  function ParseRefresh<T>(body: RefreshBody<T>): (r: Option<T>)
    ensures r.Some? <==> body.refreshToken.Given?
    ensures r.Some? ==> r.value == body.refreshToken.value
  {
    match body.refreshToken
    case Given(t) => Some(t)
    case _ => None
  }

  // ---------------------------------------------------------------------
  // Task bodies

  /** A task body as received. `userId` stands for every key the schema does
      not declare: a client may send it, parsing drops it. */
  datatype TaskBody = TaskBody(title: Field<string>, description: Field<string>,
                               status: Field<string>, userId: Field<string>)

  /** `taskSchema` output: what `createTask` stores. */
  datatype TaskInput = TaskInput(title: string, description: Option<string>, status: Option<Status>)

  /** `taskSchema.partial()` output: the fields `updateTask` changes. */
  datatype TaskPatch = TaskPatch(title: Option<string>, description: Option<string>, status: Option<Status>)

  /** `taskSchema`: a title of at least one character, an optional string
      description and an optional status from the enumeration. */
  function ParseTask(body: TaskBody): (r: Option<TaskInput>)
    ensures r.Some? <==>
      && body.title.Given? && |body.title.value| >= 1
      && !body.description.Mistyped?
      && (body.status.Absent? || (body.status.Given? && ParseStatus(body.status.value).Some?))
    ensures r.Some? ==> |r.value.title| >= 1 && body.title == Given(r.value.title)
    ensures r.Some? ==> (body.description.Absent? <==> r.value.description.None?)
    ensures r.Some? && r.value.description.Some? ==> body.description == Given(r.value.description.value)
    ensures r.Some? && r.value.status.Some? ==> body.status == Given(StatusName(r.value.status.value))
    ensures r.Some? && r.value.status.None? ==> body.status.Absent?
  {
    match (RequiredString(body.title, 1), OptionalString(body.description, 0), OptionalStatus(body.status))
    case (Some(t), Some(d), Some(s)) => Some(TaskInput(t, d, s))
    case _ => None
  }

  /** `taskSchema.partial()`: every field may be missing; a present one obeys
      the same rule as in `taskSchema`. */
  function ParseTaskPatch(body: TaskBody): (r: Option<TaskPatch>)
    ensures r.Some? <==>
      && (body.title.Absent? || (body.title.Given? && |body.title.value| >= 1))
      && !body.description.Mistyped?
      && (body.status.Absent? || (body.status.Given? && ParseStatus(body.status.value).Some?))
    ensures r.Some? && r.value.title.Some? ==> |r.value.title.value| >= 1 && body.title == Given(r.value.title.value)
    ensures r.Some? ==> (body.title.Absent? <==> r.value.title.None?)
    ensures r.Some? ==> (body.description.Absent? <==> r.value.description.None?)
    ensures r.Some? && r.value.description.Some? ==> body.description == Given(r.value.description.value)
    ensures r.Some? ==> (body.status.Absent? <==> r.value.status.None?)
    ensures r.Some? && r.value.status.Some? ==> body.status == Given(StatusName(r.value.status.value))
  {
    match (OptionalString(body.title, 1), OptionalString(body.description, 0), OptionalStatus(body.status))
    case (Some(t), Some(d), Some(s)) => Some(TaskPatch(t, d, s))
    case _ => None
  }

  /** A present status that is not one of the three spellings rejects both
      the full and the partial task body. */
  lemma UnknownStatusRejected(body: TaskBody)
    requires body.status.Given? && ParseStatus(body.status.value).None?
    ensures ParseTask(body).None? && ParseTaskPatch(body).None?
  {
  }

  /** The client-sent owner never reaches the parsed data. */
  lemma TaskSchemaDropsOwner(body: TaskBody, owner: Field<string>)
    ensures ParseTask(body.(userId := owner)) == ParseTask(body)
    ensures ParseTaskPatch(body.(userId := owner)) == ParseTaskPatch(body)
  {
  }

  /** A full task body is also a valid partial one that sets its title and
      whatever else it carries. */
  lemma FullBodyIsPatch(body: TaskBody)
    requires ParseTask(body).Some?
    ensures ParseTaskPatch(body) ==
      Some(TaskPatch(Some(ParseTask(body).value.title), ParseTask(body).value.description, ParseTask(body).value.status))
  {
  }
}
