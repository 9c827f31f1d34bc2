/** The handlers of `GET /api/notes` (list the caller's notes) and
    `POST /api/notes` (create a note): authentication first, then input
    validation, then the free-plan quota, then the insert. */
module NotesRoute {
  import opened Records
  import opened Database
  import opened Auth

  /** A free-plan tenant may hold this many notes. */
  const FreeNoteLimit := 3

  /** The parsed JSON body of a create request; a field is missing or a string. */
  datatype NoteInput = NoteInput(title: Option<string>, content: Option<string>)

  /** A request: its Authorization header, and its body, which is absent
      when `request.json()` cannot parse it. */
  datatype Request = Request(authorization: Option<string>, body: Option<NoteInput>)

  datatype ResponseBody =
    | ErrorBody(error: string, code: Option<string>)
    | NotesBody(notes: seq<NoteView>)
    | CreatedBody(message: string, note: Option<NoteView>)

  datatype Response = Response(status: int, body: ResponseBody)

  const InternalServerError := Response(500, ErrorBody("Internal server error", None))
  const MissingFields := Response(400, ErrorBody("Title and content are required", None))
  const LimitReached := Response(403, ErrorBody("Note limit reached. Upgrade to Pro for unlimited notes.", Some("LIMIT_REACHED")))

  /** The handlers' catch block: 401 carrying the message for the two
      authentication errors, 500 for any other error. */
  function CaughtError(message: string): (resp: Response)
    ensures resp.status == 401 <==>
      message == Message(AuthenticationRequired) || message == Message(InvalidOrExpiredToken)
    ensures resp.status == 401 ==> resp.body == ErrorBody(message, None)
    ensures resp.status != 401 ==> resp == InternalServerError
  {
    if message == "Authentication required" || message == "Invalid or expired token" then
      Response(401, ErrorBody(message, None))
    else
      InternalServerError
  }

  /** The caller's identity: `requireAuth(extractTokenFromHeader(header))`. */
  function Caller(req: Request, jwtVerify: string -> JwtOutcome): Result<Payload, AuthError>
  {
    RequireAuth(ExtractTokenFromHeader(req.authorization), jwtVerify)
  }

  /** `!field`: missing, or the empty string. */
  predicate Blank(field: Option<string>)
  {
    field.None? || field.value == ""
  }

  /** The quota policy: a free-plan caller may create a note only while its
      tenant holds fewer than three; any other plan is not limited. */
  predicate MayCreate(plan: Option<Plan>, noteCount: int)
  {
    plan != Some(Free) || noteCount < FreeNoteLimit
  }

  /** An authentication failure becomes 401, never 500. */
  lemma AuthFailureIs401(e: AuthError)
    requires e != AdminAccessRequired
    ensures CaughtError(Message(e)).status == 401
  {
    MessagesDistinguishErrors(e, AuthenticationRequired);
    MessagesDistinguishErrors(e, InvalidOrExpiredToken);
  }

  /** What `POST` decides before it touches the store: the response that
      rejects the request, or the note to insert. */
  datatype Decision = Reject(resp: Response) | Insert(user: Payload, title: string, content: string)

  /** The guards of `POST` in their order: authentication, body parsing,
      non-empty title and content, and (free plan only) the quota, counted
      on the note table `ns` as it stands. */
  function Decide(req: Request, jwtVerify: string -> JwtOutcome, ns: seq<Note>): (d: Decision)
    ensures Caller(req, jwtVerify).Failure? ==> d.Reject? && d.resp.status == 401
    ensures d.Reject? ==> d.resp.status in {400, 401, 403, 500}
    ensures d.Insert? ==>
      && Caller(req, jwtVerify) == Success(d.user)
      && req.body.Some? && req.body.value.title == Some(d.title) && req.body.value.content == Some(d.content)
      && d.title != "" && d.content != ""
      && MayCreate(d.user.tenantPlan, |NotesOf(ns, d.user.tenantId)|)
    ensures (&& Caller(req, jwtVerify).Success? && req.body.Some?
             && !Blank(req.body.value.title) && !Blank(req.body.value.content)
             && MayCreate(Caller(req, jwtVerify).value.tenantPlan, |NotesOf(ns, Caller(req, jwtVerify).value.tenantId)|))
            ==> d.Insert?
  {
    var user := Caller(req, jwtVerify);
    if user.Failure? then
      AuthFailureIs401(user.error);
      Reject(CaughtError(Message(user.error)))
    else if req.body.None? then
      Reject(InternalServerError)
    else if Blank(req.body.value.title) || Blank(req.body.value.content) then
      Reject(MissingFields)
    else if !MayCreate(user.value.tenantPlan, |NotesOf(ns, user.value.tenantId)|) then
      Reject(LimitReached)
    else
      Insert(user.value, req.body.value.title.value, req.body.value.content.value)
  }

  /** The note `createNote` appends for an accepted request. */
  function NewNote(d: Decision, id: int, now: int): Note
    requires d.Insert?
  {
    Note(id, d.title, d.content, d.user.userId, d.user.tenantId, now, now)
  }

  /** Authentication comes first: a request without a valid token gets 401
      whatever its body and whatever the store holds. */
  lemma AuthenticationFirst(req: Request, jwtVerify: string -> JwtOutcome, ns: seq<Note>)
    requires Caller(req, jwtVerify).Failure?
    ensures Decide(req, jwtVerify, ns) == Reject(CaughtError(Message(Caller(req, jwtVerify).error)))
    ensures Decide(req, jwtVerify, ns).resp.body.error == Message(Caller(req, jwtVerify).error)
  {
    AuthFailureIs401(Caller(req, jwtVerify).error);
  }

  /** An authenticated request with a missing or empty title or content gets
      400, whatever the quota. */
  lemma MissingFieldsRejected(req: Request, jwtVerify: string -> JwtOutcome, ns: seq<Note>)
    requires Caller(req, jwtVerify).Success? && req.body.Some?
    requires Blank(req.body.value.title) || Blank(req.body.value.content)
    ensures Decide(req, jwtVerify, ns) == Reject(MissingFields)
  {
  }

  /** An otherwise valid request from a free-plan caller whose tenant already
      holds three or more notes gets 403 with code LIMIT_REACHED; a pro-plan
      caller is never refused for quota. */
  lemma QuotaDecides(req: Request, jwtVerify: string -> JwtOutcome, ns: seq<Note>)
    requires Caller(req, jwtVerify).Success? && req.body.Some?
    requires !Blank(req.body.value.title) && !Blank(req.body.value.content)
    ensures var user := Caller(req, jwtVerify).value;
      && (user.tenantPlan == Some(Free) && |NotesOf(ns, user.tenantId)| >= FreeNoteLimit ==>
            Decide(req, jwtVerify, ns) == Reject(LimitReached))
      && (user.tenantPlan == Some(Pro) ==> Decide(req, jwtVerify, ns).Insert?)
  {
  }

  /** The sequential quota invariant: after an accepted free-plan create the
      tenant holds at most three notes, and every other tenant's notes are
      as they were. */
  lemma {:induction false} QuotaInvariant(req: Request, jwtVerify: string -> JwtOutcome, ns: seq<Note>, id: int, now: int)
    requires Decide(req, jwtVerify, ns).Insert?
    ensures var d := Decide(req, jwtVerify, ns);
      && |NotesOf(ns + [NewNote(d, id, now)], d.user.tenantId)| == |NotesOf(ns, d.user.tenantId)| + 1
      && (d.user.tenantPlan == Some(Free) ==> |NotesOf(ns + [NewNote(d, id, now)], d.user.tenantId)| <= FreeNoteLimit)
      && forall t :: t != d.user.tenantId ==> NotesOf(ns + [NewNote(d, id, now)], t) == NotesOf(ns, t)
  {
    var d := Decide(req, jwtVerify, ns);
    var n := NewNote(d, id, now);
    AppendCount(ns, n, d.user.tenantId);
    forall t | t != d.user.tenantId ensures NotesOf(ns + [n], t) == NotesOf(ns, t) {
      AppendCount(ns, n, t);
    }
  }

  /** `GET`: the caller's tenant's notes, or 401; the store is only read. */
  function Get(db: Store, req: Request, jwtVerify: string -> JwtOutcome): (resp: Response)
    reads db
    ensures resp.status == 200 || resp.status == 401
    ensures resp.status == 401 <==> Caller(req, jwtVerify).Failure?
    ensures resp.status == 401 ==> resp.body == ErrorBody(Message(Caller(req, jwtVerify).error), None)
    ensures resp.status == 200 ==>
      resp.body == NotesBody(db.GetNotesByTenant(Caller(req, jwtVerify).value.tenantId))
    ensures resp.status == 200 ==>
      resp.body.NotesBody? &&
      |resp.body.notes| == db.CountNotesByTenant(Caller(req, jwtVerify).value.tenantId) &&
      forall k :: 0 <= k < |resp.body.notes| ==>
        resp.body.notes[k].note in db.notes &&
        resp.body.notes[k].note.tenantId == Caller(req, jwtVerify).value.tenantId
  {
    var user := Caller(req, jwtVerify);
    if user.Failure? then
      AuthFailureIs401(user.error);
      CaughtError(Message(user.error))
    else
      Response(200, NotesBody(db.GetNotesByTenant(user.value.tenantId)))
  }

  /** `POST`: authenticate, then parse and check the body, then (for a
      free-plan caller) the quota, then insert and answer 201 with the new
      note as `getNoteById` reads it back. Every rejection leaves the store
      as it was. */
  method Post(db: Store, req: Request, jwtVerify: string -> JwtOutcome, now: int) returns (resp: Response)
    requires db.Valid()
    modifies db
    ensures db.Valid()
    ensures Decide(req, jwtVerify, old(db.notes)).Reject? ==>
      resp == Decide(req, jwtVerify, old(db.notes)).resp && unchanged(db)
    ensures Decide(req, jwtVerify, old(db.notes)).Insert? ==>
      var n := NewNote(Decide(req, jwtVerify, old(db.notes)), old(db.nextNoteId), now);
      && db.notes == old(db.notes) + [n]
      && db.nextNoteId == old(db.nextNoteId) + 1
      && db.tenants == old(db.tenants) && db.users == old(db.users)
      && db.nextTenantId == old(db.nextTenantId) && db.nextUserId == old(db.nextUserId)
      && db.initialized == old(db.initialized)
      && resp == Response(201, CreatedBody("Note created successfully", Some(WithAuthor(n, db.users))))
  {
    var token := ExtractTokenFromHeader(req.authorization);
    var auth := RequireAuth(token, jwtVerify);
    if auth.Failure? {
      AuthFailureIs401(auth.error);
      return CaughtError(Message(auth.error));
    }
    var user := auth.value;

    if req.body.None? {
      return InternalServerError;
    }
    var input := req.body.value;

    if Blank(input.title) || Blank(input.content) {
      return MissingFields;
    }

    if user.tenantPlan == Some(Free) {
      var noteCount := db.CountNotesByTenant(user.tenantId);
      assert noteCount == |NotesOf(db.notes, user.tenantId)|;
      if noteCount >= FreeNoteLimit {
        return LimitReached;
      }
    }

    var id := db.CreateNote(input.title.value, input.content.value, user.userId, user.tenantId, now);
    ghost var n := db.notes[|db.notes| - 1];
    assert HasNote(db.notes, id, user.tenantId) by {
      assert n.id == id && n.tenantId == user.tenantId;
    }
    var newNote := db.GetNoteById(id, user.tenantId);
    assert newNote.value.note == n;
    resp := Response(201, CreatedBody("Note created successfully", newNote));
  }
}
