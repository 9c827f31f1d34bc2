/** Records held by the in-memory store and passed between the store, the
    token helpers and the request handlers. */
module Records {

  datatype Option<+T> = None | Some(value: T)

  datatype Result<+R, +E> = Success(value: R) | Failure(error: E)

  /** A tenant's subscription tier. */
  datatype Plan = Free | Pro

  datatype Role = Admin | Member

  /** Timestamps (`created_at`, `updated_at`) are ISO strings in the source;
      only their order matters, so they are integer clock readings here. */
  datatype Tenant = Tenant(id: int, slug: string, name: string, plan: Plan, createdAt: int)

  datatype User = User(id: int, email: string, passwordHash: string, role: Role, tenantId: int, createdAt: int)

  datatype Note = Note(id: int, title: string, content: string, userId: int, tenantId: int,
                       createdAt: int, updatedAt: int)

  /** A note as the read queries return it: the note's own fields plus the
      author's email joined from the user table at read time. */
  datatype NoteView = NoteView(note: Note, authorEmail: string)

  /** A user as the user queries return it: the user's own fields plus the
      slug and plan of its tenant, absent when no tenant has that id. */
  datatype UserView = UserView(user: User, tenantSlug: Option<string>, tenantPlan: Option<Plan>)
}
