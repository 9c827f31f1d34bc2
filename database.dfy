/** The in-memory store: three tables (tenants, users, notes) and their
    auto-increment counters, updated in place, with every note read and
    every note mutation scoped by both note id and tenant id. */
module Database {
  import opened Records
  import opened ArrayOps

  // ---------------------------------------------------------------------
  // Search keys: the callbacks the store passes to `find`, `findIndex` and
  // `filter`.

  function NoteKey(id: int, tenantId: int): Note -> bool
  {
    (n: Note) => n.id == id && n.tenantId == tenantId
  }

  function OfTenant(tenantId: int): Note -> bool
  {
    (n: Note) => n.tenantId == tenantId
  }

  function SlugKey(slug: string): Tenant -> bool
  {
    (t: Tenant) => t.slug == slug
  }

  function TenantIdKey(id: int): Tenant -> bool
  {
    (t: Tenant) => t.id == id
  }

  function EmailKey(email: string): User -> bool
  {
    (u: User) => u.email == email
  }

  function UserIdKey(id: int): User -> bool
  {
    (u: User) => u.id == id
  }

  // ---------------------------------------------------------------------
  // Views of the note table.

  /** Some note has this id and belongs to this tenant. */
  predicate HasNote(ns: seq<Note>, id: int, tenantId: int)
  {
    exists i :: 0 <= i < |ns| && ns[i].id == id && ns[i].tenantId == tenantId
  }

  /** The notes of one tenant, in table order. */
  function NotesOf(ns: seq<Note>, tenantId: int): seq<Note>
  {
    Filter(ns, OfTenant(tenantId))
  }

  ghost predicate NoteIdsBelow(ns: seq<Note>, bound: int)
  {
    forall i :: 0 <= i < |ns| ==> ns[i].id < bound
  }

  ghost predicate NoteIdsDistinct(ns: seq<Note>)
  {
    forall i, j :: 0 <= i < j < |ns| ==> ns[i].id != ns[j].id
  }

  /** Some tenant of the table has this id. */
  ghost predicate HasTenant(ts: seq<Tenant>, id: int)
  {
    exists k :: 0 <= k < |ts| && ts[k].id == id
  }

  /** Every user's tenant id names a tenant of the table. */
  ghost predicate UsersHaveTenants(us: seq<User>, ts: seq<Tenant>)
  {
    forall i :: 0 <= i < |us| ==> HasTenant(ts, us[i].tenantId)
  }

  // ---------------------------------------------------------------------
  // Author join and newest-first ordering used by the read queries.

  /** `user?.email || 'Unknown'`: the email of the first user with this id,
      or "Unknown" when there is none or its email is the empty string. */
  function AuthorEmail(us: seq<User>, userId: int): (e: string)
    ensures (forall i :: 0 <= i < |us| ==> us[i].id != userId) ==> e == "Unknown"
    ensures e != "Unknown" ==> e != "" && exists i :: 0 <= i < |us| && us[i].id == userId && us[i].email == e
    ensures forall k :: 0 <= k < |us| && us[k].id == userId && (forall i :: 0 <= i < k ==> us[i].id != userId) ==>
      e == if us[k].email == "" then "Unknown" else us[k].email
  {
    var u := Find(us, UserIdKey(userId));
    if u.Some? && u.value.email != "" then u.value.email else "Unknown"
  }

  function WithAuthor(n: Note, us: seq<User>): NoteView
  {
    NoteView(n, AuthorEmail(us, n.userId))
  }

  function WithAuthors(ns: seq<Note>, us: seq<User>): (r: seq<NoteView>)
    ensures |r| == |ns|
    ensures forall k :: 0 <= k < |ns| ==> r[k] == WithAuthor(ns[k], us)
  {
    seq(|ns|, k requires 0 <= k < |ns| => WithAuthor(ns[k], us))
  }

  /** Ordered newest `created_at` first. */
  ghost predicate NewestFirst(s: seq<NoteView>)
  {
    forall i, j :: 0 <= i < j < |s| ==> s[i].note.createdAt >= s[j].note.createdAt
  }

  /** Inserts `v` before the first element that is not newer than it, so
      that among equal timestamps the earlier element stays first. */
  function InsertNewest(v: NoteView, s: seq<NoteView>): seq<NoteView>
  {
    if s == [] || v.note.createdAt >= s[0].note.createdAt then [v] + s
    else [s[0]] + InsertNewest(v, s[1..])
  }

  lemma {:induction false} InsertNewestPermutes(v: NoteView, s: seq<NoteView>)
    ensures multiset(InsertNewest(v, s)) == multiset(s) + multiset{v}
  {
    if s != [] && v.note.createdAt < s[0].note.createdAt {
      InsertNewestPermutes(v, s[1..]);
      assert s == [s[0]] + s[1..];
    }
  }

  lemma {:induction false} InsertNewestSorted(v: NoteView, s: seq<NoteView>)
    requires NewestFirst(s)
    ensures NewestFirst(InsertNewest(v, s))
  {
    if s != [] && v.note.createdAt < s[0].note.createdAt {
      var tail := s[1..];
      var rest := InsertNewest(v, tail);
      InsertNewestSorted(v, tail);
      InsertNewestPermutes(v, tail);
      var r := [s[0]] + rest;
      forall i, j | 0 <= i < j < |r| ensures r[i].note.createdAt >= r[j].note.createdAt {
        var x := rest[j - 1];
        assert r[j] == x;
        if i == 0 && x != v {
          assert x in multiset(rest);
          assert x in multiset(tail);
          var m :| 0 <= m < |tail| && tail[m] == x;
          assert s[m + 1] == x;
        }
      }
    }
  }

  /** `sort((a, b) => b.created_at - a.created_at)`: a stable sort, newest first. */
  function SortNewestFirst(s: seq<NoteView>): (r: seq<NoteView>)
    ensures multiset(r) == multiset(s)
    ensures NewestFirst(r)
  {
    if s == [] then []
    else
      var rest := SortNewestFirst(s[1..]);
      InsertNewestPermutes(s[0], rest);
      InsertNewestSorted(s[0], rest);
      assert s == [s[0]] + s[1..];
      InsertNewest(s[0], rest)
  }

  /** Sorting keeps the length and exactly the elements. */
  lemma SortKeepsMembers(s: seq<NoteView>)
    ensures |SortNewestFirst(s)| == |s|
    ensures forall x :: x in SortNewestFirst(s) <==> x in s
  {
    var r := SortNewestFirst(s);
    assert |multiset(r)| == |multiset(s)|;
    forall x ensures x in r <==> x in s {
      assert x in r <==> x in multiset(r);
      assert x in s <==> x in multiset(s);
    }
  }

  /** The author-annotated notes of a tenant are views of that tenant's
      notes, and every note of the tenant has its view among them. */
  lemma TenantViews(ns: seq<Note>, us: seq<User>, tenantId: int)
    ensures forall x :: x in WithAuthors(NotesOf(ns, tenantId), us) ==>
      x.note in ns && x.note.tenantId == tenantId && x == WithAuthor(x.note, us)
    ensures forall i :: 0 <= i < |ns| && ns[i].tenantId == tenantId ==>
      WithAuthor(ns[i], us) in WithAuthors(NotesOf(ns, tenantId), us)
  {
    var own := NotesOf(ns, tenantId);
    var views := WithAuthors(own, us);
    forall x | x in views ensures x.note in ns && x.note.tenantId == tenantId && x == WithAuthor(x.note, us) {
      var j :| 0 <= j < |views| && views[j] == x;
      assert OfTenant(tenantId)(own[j]);
    }
    forall i | 0 <= i < |ns| && ns[i].tenantId == tenantId ensures WithAuthor(ns[i], us) in views {
      assert OfTenant(tenantId)(ns[i]);
      var j :| 0 <= j < |own| && own[j] == ns[i];
      assert views[j] == WithAuthor(ns[i], us);
    }
  }

  // ---------------------------------------------------------------------
  // Reference definitions of the in-place mutations, stated recursively.

  /** The note table after `updateNote`: the first note with this id in this
      tenant takes the new title, content and update time. */
  function UpdatedNotes(ns: seq<Note>, id: int, tenantId: int, title: string, content: string, now: int): seq<Note>
  {
    if ns == [] then []
    else if ns[0].id == id && ns[0].tenantId == tenantId then
      [ns[0].(title := title, content := content, updatedAt := now)] + ns[1..]
    else
      [ns[0]] + UpdatedNotes(ns[1..], id, tenantId, title, content, now)
  }

  /** The note table after `deleteNote`: the first note with this id in this
      tenant is taken out. */
  function RemovedNotes(ns: seq<Note>, id: int, tenantId: int): seq<Note>
  {
    if ns == [] then []
    else if ns[0].id == id && ns[0].tenantId == tenantId then ns[1..]
    else [ns[0]] + RemovedNotes(ns[1..], id, tenantId)
  }

  /** The tenant table after `updateTenantPlan`: the first tenant with this
      slug takes the new plan. */
  function TenantsWithPlan(ts: seq<Tenant>, slug: string, plan: Plan): seq<Tenant>
  {
    if ts == [] then []
    else if ts[0].slug == slug then [ts[0].(plan := plan)] + ts[1..]
    else [ts[0]] + TenantsWithPlan(ts[1..], slug, plan)
  }

  // ---------------------------------------------------------------------
  // The index-based updates the store performs agree with the references.

  lemma {:induction false} UpdatedNotesAt(ns: seq<Note>, id: int, tenantId: int, title: string, content: string, now: int)
    requires FindIndex(ns, NoteKey(id, tenantId)) != -1
    ensures var i := FindIndex(ns, NoteKey(id, tenantId));
      UpdatedNotes(ns, id, tenantId, title, content, now)
        == ns[i := ns[i].(title := title, content := content, updatedAt := now)]
  {
    if !(ns[0].id == id && ns[0].tenantId == tenantId) {
      var tail := ns[1..];
      var k := FindIndex(tail, NoteKey(id, tenantId));
      assert !NoteKey(id, tenantId)(ns[0]);
      assert k != -1 && FindIndex(ns, NoteKey(id, tenantId)) == k + 1;
      UpdatedNotesAt(tail, id, tenantId, title, content, now);
      assert [ns[0]] + tail[k := tail[k].(title := title, content := content, updatedAt := now)]
          == ns[k + 1 := ns[k + 1].(title := title, content := content, updatedAt := now)];
    }
  }

  lemma {:induction false} RemovedNotesAt(ns: seq<Note>, id: int, tenantId: int)
    requires FindIndex(ns, NoteKey(id, tenantId)) != -1
    ensures var i := FindIndex(ns, NoteKey(id, tenantId));
      RemovedNotes(ns, id, tenantId) == ns[..i] + ns[i + 1..]
  {
    if !(ns[0].id == id && ns[0].tenantId == tenantId) {
      var tail := ns[1..];
      var k := FindIndex(tail, NoteKey(id, tenantId));
      assert !NoteKey(id, tenantId)(ns[0]);
      assert k != -1 && FindIndex(ns, NoteKey(id, tenantId)) == k + 1;
      RemovedNotesAt(tail, id, tenantId);
      SpliceCons(ns, k);
    }
  }

  /** Taking out position `k + 1` of `s` is keeping its head and taking out
      position `k` of its tail. */
  lemma SpliceCons<T>(s: seq<T>, k: int)
    requires 0 <= k < |s| - 1
    ensures [s[0]] + (s[1..][..k] + s[1..][k + 1..]) == s[..k + 1] + s[k + 2..]
  {
    assert [s[0]] + s[1..][..k] == s[..k + 1];
    assert s[1..][k + 1..] == s[k + 2..];
  }

  lemma {:induction false} TenantsWithPlanAt(ts: seq<Tenant>, slug: string, plan: Plan)
    requires FindIndex(ts, SlugKey(slug)) != -1
    ensures var i := FindIndex(ts, SlugKey(slug));
      TenantsWithPlan(ts, slug, plan) == ts[i := ts[i].(plan := plan)]
  {
    if ts[0].slug != slug {
      var tail := ts[1..];
      var k := FindIndex(tail, SlugKey(slug));
      assert !SlugKey(slug)(ts[0]);
      assert k != -1 && FindIndex(ts, SlugKey(slug)) == k + 1;
      TenantsWithPlanAt(tail, slug, plan);
      assert [ts[0]] + tail[k := tail[k].(plan := plan)] == ts[k + 1 := ts[k + 1].(plan := plan)];
    }
  }

  /** `updateTenantPlan` with an unknown slug leaves the table as it was. */
  lemma {:induction false} TenantsWithPlanMissing(ts: seq<Tenant>, slug: string, plan: Plan)
    requires forall k :: 0 <= k < |ts| ==> ts[k].slug != slug
    ensures TenantsWithPlan(ts, slug, plan) == ts
  {
    if ts != [] {
      TenantsWithPlanMissing(ts[1..], slug, plan);
      assert ts == [ts[0]] + ts[1..];
    }
  }

  // ---------------------------------------------------------------------
  // Properties of the mutations.

  /** `updateNote` changes nothing but the title, content and update time of
      a note with the given id in the given tenant. */
  lemma {:induction false} UpdateTouchesOnlyTarget(ns: seq<Note>, id: int, tenantId: int, title: string, content: string, now: int)
    ensures var r := UpdatedNotes(ns, id, tenantId, title, content, now);
      && |r| == |ns|
      && forall i :: 0 <= i < |ns| ==>
           r[i] == ns[i] ||
           (ns[i].id == id && ns[i].tenantId == tenantId &&
            r[i] == ns[i].(title := title, content := content, updatedAt := now))
  {
    if ns != [] && !(ns[0].id == id && ns[0].tenantId == tenantId) {
      UpdateTouchesOnlyTarget(ns[1..], id, tenantId, title, content, now);
    }
  }

  /** `updateNote` scoped to one tenant leaves every other tenant's notes as they were. */
  lemma {:induction false} UpdateIsolation(ns: seq<Note>, id: int, tenantId: int, title: string, content: string, now: int, other: int)
    requires other != tenantId
    ensures NotesOf(UpdatedNotes(ns, id, tenantId, title, content, now), other) == NotesOf(ns, other)
  {
    if ns != [] {
      var tail := ns[1..];
      FilterCons(ns[0], tail, OfTenant(other));
      assert ns == [ns[0]] + tail;
      if ns[0].id == id && ns[0].tenantId == tenantId {
        FilterCons(ns[0].(title := title, content := content, updatedAt := now), tail, OfTenant(other));
      } else {
        UpdateIsolation(tail, id, tenantId, title, content, now, other);
        FilterCons(ns[0], UpdatedNotes(tail, id, tenantId, title, content, now), OfTenant(other));
      }
    }
  }

  /** `deleteNote` scoped to one tenant leaves every other tenant's notes as they were. */
  lemma {:induction false} RemoveIsolation(ns: seq<Note>, id: int, tenantId: int, other: int)
    requires other != tenantId
    ensures NotesOf(RemovedNotes(ns, id, tenantId), other) == NotesOf(ns, other)
  {
    if ns != [] {
      var tail := ns[1..];
      FilterCons(ns[0], tail, OfTenant(other));
      assert ns == [ns[0]] + tail;
      if !(ns[0].id == id && ns[0].tenantId == tenantId) {
        RemoveIsolation(tail, id, tenantId, other);
        FilterCons(ns[0], RemovedNotes(tail, id, tenantId), OfTenant(other));
      }
    }
  }

  /** A note matching the id and tenant is either the first note or a later one. */
  lemma HasNoteCons(ns: seq<Note>, id: int, tenantId: int)
    requires ns != []
    ensures HasNote(ns, id, tenantId) <==>
      (ns[0].id == id && ns[0].tenantId == tenantId) || HasNote(ns[1..], id, tenantId)
  {
    if HasNote(ns, id, tenantId) {
      var i :| 0 <= i < |ns| && ns[i].id == id && ns[i].tenantId == tenantId;
      if i > 0 {
        assert ns[1..][i - 1] == ns[i];
      }
    }
    if HasNote(ns[1..], id, tenantId) {
      var i :| 0 <= i < |ns[1..]| && ns[1..][i].id == id && ns[1..][i].tenantId == tenantId;
      assert ns[i + 1] == ns[1..][i];
    }
  }

  /** `deleteNote` takes exactly one note out of the tenant's notes when one
      matches. */
  lemma {:induction false} RemoveCount(ns: seq<Note>, id: int, tenantId: int)
    requires HasNote(ns, id, tenantId)
    ensures |NotesOf(RemovedNotes(ns, id, tenantId), tenantId)| + 1 == |NotesOf(ns, tenantId)|
  {
    var tail := ns[1..];
    HasNoteCons(ns, id, tenantId);
    FilterCons(ns[0], tail, OfTenant(tenantId));
    assert ns == [ns[0]] + tail;
    if !(ns[0].id == id && ns[0].tenantId == tenantId) {
      RemoveCount(tail, id, tenantId);
      FilterCons(ns[0], RemovedNotes(tail, id, tenantId), OfTenant(tenantId));
    }
  }

  /** `deleteNote` with no matching note leaves the table as it was. */
  lemma {:induction false} RemoveMissing(ns: seq<Note>, id: int, tenantId: int)
    requires !HasNote(ns, id, tenantId)
    ensures RemovedNotes(ns, id, tenantId) == ns
  {
    if ns != [] {
      HasNoteCons(ns, id, tenantId);
      RemoveMissing(ns[1..], id, tenantId);
      assert ns == [ns[0]] + ns[1..];
    }
  }

  /** Splicing one note out keeps note ids distinct and below the bound. */
  lemma SpliceKeepsIds(ns: seq<Note>, i: int, bound: int)
    requires NoteIdsBelow(ns, bound) && NoteIdsDistinct(ns)
    requires 0 <= i < |ns|
    ensures NoteIdsBelow(ns[..i] + ns[i + 1..], bound) && NoteIdsDistinct(ns[..i] + ns[i + 1..])
  {
    var r := ns[..i] + ns[i + 1..];
    assert forall k :: 0 <= k < |r| ==> r[k] == if k < i then ns[k] else ns[k + 1];
  }

  /** Appending one note adds it to its own tenant's notes and to no other's. */
  lemma AppendCount(ns: seq<Note>, n: Note, tenantId: int)
    ensures |NotesOf(ns + [n], tenantId)| == |NotesOf(ns, tenantId)| + (if n.tenantId == tenantId then 1 else 0)
    ensures n.tenantId != tenantId ==> NotesOf(ns + [n], tenantId) == NotesOf(ns, tenantId)
  {
    FilterAppend(ns, [n], OfTenant(tenantId));
    assert [n][1..] == [];
  }

  /** Setting the same plan twice is the same as setting it once. */
  lemma {:induction false} TenantsWithPlanIdempotent(ts: seq<Tenant>, slug: string, plan: Plan)
    ensures TenantsWithPlan(TenantsWithPlan(ts, slug, plan), slug, plan) == TenantsWithPlan(ts, slug, plan)
  {
    if ts != [] {
      if ts[0].slug == slug {
        assert ([ts[0].(plan := plan)] + ts[1..])[1..] == ts[1..];
      } else {
        TenantsWithPlanIdempotent(ts[1..], slug, plan);
        assert ([ts[0]] + TenantsWithPlan(ts[1..], slug, plan))[1..] == TenantsWithPlan(ts[1..], slug, plan);
      }
    }
  }

  /** After `updateTenantPlan`, looking the slug up finds the same tenant
      with the new plan, and every tenant keeps its id, slug and name. */
  lemma TenantsWithPlanSets(ts: seq<Tenant>, slug: string, plan: Plan)
    ensures var r := TenantsWithPlan(ts, slug, plan);
      && |r| == |ts|
      && (forall i :: 0 <= i < |ts| ==> r[i].id == ts[i].id && r[i].slug == ts[i].slug && r[i].name == ts[i].name)
      && (Find(ts, SlugKey(slug)).Some? ==> Find(r, SlugKey(slug)) == Some(Find(ts, SlugKey(slug)).value.(plan := plan)))
  {
    var i := FindIndex(ts, SlugKey(slug));
    if i == -1 {
      TenantsWithPlanMissing(ts, slug, plan);
    } else {
      TenantsWithPlanAt(ts, slug, plan);
      var r := TenantsWithPlan(ts, slug, plan);
      assert SlugKey(slug)(r[i]);
    }
  }

  /** With distinct note ids, a note of one tenant is invisible to every
      other tenant: looking it up there finds nothing, as for a missing id. */
  lemma OtherTenantsNoteIsHidden(ns: seq<Note>, i: int, tenantId: int)
    requires NoteIdsDistinct(ns)
    requires 0 <= i < |ns| && ns[i].tenantId != tenantId
    ensures !HasNote(ns, ns[i].id, tenantId)
  {
    forall j | 0 <= j < |ns| ensures !(ns[j].id == ns[i].id && ns[j].tenantId == tenantId) {
      if j < i {
        assert ns[j].id != ns[i].id;
      } else if i < j {
        assert ns[i].id != ns[j].id;
      }
    }
  }

  /** `updateNote` with no matching note leaves the table as it was. */
  lemma {:induction false} UpdateMissing(ns: seq<Note>, id: int, tenantId: int, title: string, content: string, now: int)
    requires !HasNote(ns, id, tenantId)
    ensures UpdatedNotes(ns, id, tenantId, title, content, now) == ns
  {
    if ns != [] {
      HasNoteCons(ns, id, tenantId);
      UpdateMissing(ns[1..], id, tenantId, title, content, now);
      assert ns == [ns[0]] + ns[1..];
    }
  }

  /** Updating or deleting another tenant's note by its id changes nothing,
      exactly as for an id that does not exist. */
  lemma CrossTenantWriteIsNoOp(ns: seq<Note>, i: int, tenantId: int, title: string, content: string, now: int)
    requires NoteIdsDistinct(ns)
    requires 0 <= i < |ns| && ns[i].tenantId != tenantId
    ensures UpdatedNotes(ns, ns[i].id, tenantId, title, content, now) == ns
    ensures RemovedNotes(ns, ns[i].id, tenantId) == ns
  {
    OtherTenantsNoteIsHidden(ns, i, tenantId);
    UpdateMissing(ns, ns[i].id, tenantId, title, content, now);
    RemoveMissing(ns, ns[i].id, tenantId);
  }

  // ---------------------------------------------------------------------
  // Seed data.

  /** The two tenants `initializeDatabase` creates, with consecutive ids from `firstId`. */
  function SeedTenants(firstId: int, now: int): seq<Tenant>
  {
    [Tenant(firstId, "acme", "Acme Corporation", Free, now),
     Tenant(firstId + 1, "globex", "Globex Corporation", Free, now)]
  }

  /** The four users `initializeDatabase` creates, an admin and a member per
      seeded tenant, all with the same password hash. */
  function SeedUsers(firstId: int, acmeId: int, globexId: int, passwordHash: string, now: int): seq<User>
  {
    [User(firstId, "admin@acme.test", passwordHash, Admin, acmeId, now),
     User(firstId + 1, "user@acme.test", passwordHash, Member, acmeId, now),
     User(firstId + 2, "admin@globex.test", passwordHash, Admin, globexId, now),
     User(firstId + 3, "user@globex.test", passwordHash, Member, globexId, now)]
  }

  /** Changing tenants in ways that keep every id keeps every user's tenant. */
  lemma UsersKeepTenants(us: seq<User>, ts: seq<Tenant>, ts': seq<Tenant>)
    requires UsersHaveTenants(us, ts)
    requires |ts'| == |ts| && forall k :: 0 <= k < |ts| ==> ts'[k].id == ts[k].id
    ensures UsersHaveTenants(us, ts')
  {
    forall i | 0 <= i < |us| ensures HasTenant(ts', us[i].tenantId) {
      var k :| 0 <= k < |ts| && ts[k].id == us[i].tenantId;
      assert ts'[k].id == us[i].tenantId;
    }
  }

  /** The seed: two free tenants with different slugs, and for each of them
      an admin and then a member, with consecutive user ids. */
  lemma SeedShape(firstTenantId: int, firstUserId: int, passwordHash: string, now: int)
    ensures var ts := SeedTenants(firstTenantId, now);
      var us := SeedUsers(firstUserId, firstTenantId, firstTenantId + 1, passwordHash, now);
      && |ts| == 2 && ts[0].slug != ts[1].slug && ts[1].id == ts[0].id + 1
      && (forall k :: 0 <= k < |ts| ==> ts[k].plan == Free)
      && |us| == 4
      && forall i :: 0 <= i < |us| ==>
           us[i].id == firstUserId + i && us[i].tenantId == ts[i / 2].id &&
           us[i].role == (if i % 2 == 0 then Admin else Member) && us[i].passwordHash == passwordHash
  {
    assert "acme"[0] != "globex"[0];
  }

  // ---------------------------------------------------------------------

  class Store {
    var tenants: seq<Tenant>
    var users: seq<User>
    var notes: seq<Note>
    var nextTenantId: int
    var nextUserId: int
    var nextNoteId: int
    var initialized: bool

    /** Note ids are distinct and below the next id to hand out, and every
        user belongs to a tenant of the table. */
    ghost predicate Valid()
      reads this
    {
      1 <= nextTenantId && 1 <= nextUserId && 1 <= nextNoteId &&
      NoteIdsBelow(notes, nextNoteId) && NoteIdsDistinct(notes) &&
      UsersHaveTenants(users, tenants)
    }

    /** The module state before anything runs: empty tables, counters at 1. */
    constructor ()
      ensures Valid()
      ensures tenants == [] && users == [] && notes == []
      ensures nextTenantId == 1 && nextUserId == 1 && nextNoteId == 1 && !initialized
    {
      tenants, users, notes := [], [], [];
      nextTenantId, nextUserId, nextNoteId := 1, 1, 1;
      initialized := false;
    }

    /** `initializeDatabase`: the first call seeds two free tenants and four
        users; every later call returns at once. `passwordHash` stands for
        the bcrypt hash of the default password. */
    method InitializeDatabase(passwordHash: string, now: int)
      requires Valid()
      modifies this
      ensures Valid() && initialized
      ensures old(initialized) ==> unchanged(this)
      ensures !old(initialized) ==>
        && tenants == old(tenants) + SeedTenants(old(nextTenantId), now)
        && users == old(users) + SeedUsers(old(nextUserId), old(nextTenantId), old(nextTenantId) + 1, passwordHash, now)
        && nextTenantId == old(nextTenantId) + 2
        && nextUserId == old(nextUserId) + 4
        && notes == old(notes) && nextNoteId == old(nextNoteId)
    {
      if initialized {
        return;
      }
      var acme := Tenant(nextTenantId, "acme", "Acme Corporation", Free, now);
      nextTenantId := nextTenantId + 1;
      var globex := Tenant(nextTenantId, "globex", "Globex Corporation", Free, now);
      nextTenantId := nextTenantId + 1;
      ghost var oldTenants := tenants;
      tenants := tenants + [acme, globex];

      var defaultUsers := [
        User(nextUserId, "admin@acme.test", passwordHash, Admin, acme.id, now),
        User(nextUserId + 1, "user@acme.test", passwordHash, Member, acme.id, now),
        User(nextUserId + 2, "admin@globex.test", passwordHash, Admin, globex.id, now),
        User(nextUserId + 3, "user@globex.test", passwordHash, Member, globex.id, now)
      ];
      nextUserId := nextUserId + 4;
      ghost var oldUsers := users;
      users := users + defaultUsers;
      initialized := true;

      forall i | 0 <= i < |users| ensures HasTenant(tenants, users[i].tenantId) {
        if i < |oldUsers| {
          assert HasTenant(oldTenants, oldUsers[i].tenantId);
          var k :| 0 <= k < |oldTenants| && oldTenants[k].id == oldUsers[i].tenantId;
          assert tenants[k] == oldTenants[k];
        } else if users[i].tenantId == acme.id {
          assert tenants[|oldTenants|] == acme;
        } else {
          assert tenants[|oldTenants| + 1] == globex;
        }
      }
      assert UsersHaveTenants(users, tenants);
    }

    function GetTenantBySlug(slug: string): (r: Option<Tenant>)
      reads this
      ensures r.None? <==> forall i :: 0 <= i < |tenants| ==> tenants[i].slug != slug
      ensures r.Some? ==> r.value in tenants && r.value.slug == slug
      ensures r.Some? ==>
        exists k :: 0 <= k < |tenants| && tenants[k] == r.value && forall i :: 0 <= i < k ==> tenants[i].slug != slug
    {
      Find(tenants, SlugKey(slug))
    }

    /** `updateTenantPlan`: sets the plan of the tenant with this slug and
        reports one change, or reports none when no tenant has the slug. */
    method UpdateTenantPlan(plan: Plan, slug: string) returns (changes: int)
      requires Valid()
      modifies this
      ensures Valid()
      ensures changes == (if old(GetTenantBySlug(slug)).Some? then 1 else 0)
      ensures tenants == TenantsWithPlan(old(tenants), slug, plan)
      ensures changes == 0 ==> tenants == old(tenants)
      ensures users == old(users) && notes == old(notes) && initialized == old(initialized)
      ensures nextTenantId == old(nextTenantId) && nextUserId == old(nextUserId) && nextNoteId == old(nextNoteId)
    {
      var i := FindIndex(tenants, SlugKey(slug));
      if i == -1 {
        TenantsWithPlanMissing(tenants, slug, plan);
        return 0;
      }
      TenantsWithPlanAt(tenants, slug, plan);
      UsersKeepTenants(users, tenants, tenants[i := tenants[i].(plan := plan)]);
      tenants := tenants[i := tenants[i].(plan := plan)];
      changes := 1;
    }

    /** A user with its tenant's slug and plan joined in; both are absent
        when no tenant has the user's tenant id. */
    function JoinTenant(u: User): (r: UserView)
      reads this
      ensures r.user == u
      ensures r.tenantSlug.Some? == r.tenantPlan.Some?
      ensures r.tenantSlug.None? <==> forall k :: 0 <= k < |tenants| ==> tenants[k].id != u.tenantId
      ensures r.tenantSlug.Some? ==>
        exists k :: 0 <= k < |tenants| && tenants[k].id == u.tenantId &&
          tenants[k].slug == r.tenantSlug.value && tenants[k].plan == r.tenantPlan.value &&
          forall i :: 0 <= i < k ==> tenants[i].id != u.tenantId
    {
      var t := Find(tenants, TenantIdKey(u.tenantId));
      UserView(u, if t.Some? then Some(t.value.slug) else None, if t.Some? then Some(t.value.plan) else None)
    }

    /** `getUserByEmail`: the first user with this email, joined with its tenant. */
    function GetUserByEmail(email: string): (r: Option<UserView>)
      reads this
      ensures r.None? <==> forall i :: 0 <= i < |users| ==> users[i].email != email
      ensures r.Some? ==> r.value.user in users && r.value.user.email == email && r.value == JoinTenant(r.value.user)
      ensures r.Some? ==>
        exists k :: 0 <= k < |users| && users[k] == r.value.user && forall i :: 0 <= i < k ==> users[i].email != email
      ensures Valid() && r.Some? ==> r.value.tenantSlug.Some? && r.value.tenantPlan.Some?
    {
      var u := Find(users, EmailKey(email));
      if u.None? then None else Some(JoinTenant(u.value))
    }

    /** `getUserById`: the first user with this id, joined with its tenant. */
    function GetUserById(id: int): (r: Option<UserView>)
      reads this
      ensures r.None? <==> forall i :: 0 <= i < |users| ==> users[i].id != id
      ensures r.Some? ==> r.value.user in users && r.value.user.id == id && r.value == JoinTenant(r.value.user)
      ensures r.Some? ==>
        exists k :: 0 <= k < |users| && users[k] == r.value.user && forall i :: 0 <= i < k ==> users[i].id != id
      ensures Valid() && r.Some? ==> r.value.tenantSlug.Some? && r.value.tenantPlan.Some?
    {
      var u := Find(users, UserIdKey(id));
      if u.None? then None else Some(JoinTenant(u.value))
    }

    /** `getNotesByTenant`: exactly the tenant's notes, each with its
        author's email, newest first. */
    function GetNotesByTenant(tenantId: int): (r: seq<NoteView>)
      reads this
      ensures NewestFirst(r)
      ensures |r| == |NotesOf(notes, tenantId)|
      ensures forall k :: 0 <= k < |r| ==>
        r[k].note in notes && r[k].note.tenantId == tenantId && r[k] == WithAuthor(r[k].note, users)
      ensures forall i :: 0 <= i < |notes| && notes[i].tenantId == tenantId ==> WithAuthor(notes[i], users) in r
    {
      var views := WithAuthors(NotesOf(notes, tenantId), users);
      SortKeepsMembers(views);
      TenantViews(notes, users, tenantId);
      SortNewestFirst(views)
    }

    /** `getNoteById`: the note with this id in this tenant, with its
        author's email; a note of another tenant is not found, as a missing one. */
    function GetNoteById(id: int, tenantId: int): (r: Option<NoteView>)
      reads this
      ensures r.None? <==> !HasNote(notes, id, tenantId)
      ensures r.Some? ==>
        r.value.note in notes && r.value.note.id == id && r.value.note.tenantId == tenantId &&
        r.value == WithAuthor(r.value.note, users)
    {
      var n := Find(notes, NoteKey(id, tenantId));
      if n.None? then None else Some(WithAuthor(n.value, users))
    }

    /** `createNote`: appends one note with the next id and hands out that id. */
    method CreateNote(title: string, content: string, userId: int, tenantId: int, now: int) returns (lastInsertRowid: int)
      requires Valid()
      modifies this
      ensures Valid()
      ensures lastInsertRowid == old(nextNoteId) && nextNoteId == old(nextNoteId) + 1
      ensures notes == old(notes) + [Note(lastInsertRowid, title, content, userId, tenantId, now, now)]
      ensures tenants == old(tenants) && users == old(users) && initialized == old(initialized)
      ensures nextTenantId == old(nextTenantId) && nextUserId == old(nextUserId)
    {
      var note := Note(nextNoteId, title, content, userId, tenantId, now, now);
      nextNoteId := nextNoteId + 1;
      notes := notes + [note];
      lastInsertRowid := note.id;
    }

    /** `updateNote`: rewrites the title, content and update time of the note
        with this id in this tenant; reports one change, or none (and changes
        nothing) when the tenant has no such note. */
    method UpdateNote(title: string, content: string, id: int, tenantId: int, now: int) returns (changes: int)
      requires Valid()
      modifies this
      ensures Valid()
      ensures changes == (if HasNote(old(notes), id, tenantId) then 1 else 0)
      ensures notes == UpdatedNotes(old(notes), id, tenantId, title, content, now)
      ensures changes == 0 ==> notes == old(notes)
      ensures tenants == old(tenants) && users == old(users) && initialized == old(initialized)
      ensures nextTenantId == old(nextTenantId) && nextUserId == old(nextUserId) && nextNoteId == old(nextNoteId)
    {
      var noteIndex := FindIndex(notes, NoteKey(id, tenantId));
      if noteIndex == -1 {
        assert !HasNote(notes, id, tenantId) by {
          forall i | 0 <= i < |notes| ensures !(notes[i].id == id && notes[i].tenantId == tenantId) {
            assert !NoteKey(id, tenantId)(notes[i]);
          }
        }
        UpdateMissing(notes, id, tenantId, title, content, now);
        return 0;
      }
      UpdatedNotesAt(notes, id, tenantId, title, content, now);
      assert NoteKey(id, tenantId)(notes[noteIndex]);
      notes := notes[noteIndex := notes[noteIndex].(title := title, content := content, updatedAt := now)];
      changes := 1;
    }

    /** `deleteNote`: splices out the note with this id in this tenant,
        keeping the order of the rest; reports one change, or none (and
        changes nothing) when the tenant has no such note. */
    method DeleteNote(id: int, tenantId: int) returns (changes: int)
      requires Valid()
      modifies this
      ensures Valid()
      ensures changes == (if HasNote(old(notes), id, tenantId) then 1 else 0)
      ensures notes == RemovedNotes(old(notes), id, tenantId)
      ensures changes == 0 ==> notes == old(notes)
      ensures tenants == old(tenants) && users == old(users) && initialized == old(initialized)
      ensures nextTenantId == old(nextTenantId) && nextUserId == old(nextUserId) && nextNoteId == old(nextNoteId)
    {
      var noteIndex := FindIndex(notes, NoteKey(id, tenantId));
      if noteIndex == -1 {
        assert !HasNote(notes, id, tenantId) by {
          forall i | 0 <= i < |notes| ensures !(notes[i].id == id && notes[i].tenantId == tenantId) {
            assert !NoteKey(id, tenantId)(notes[i]);
          }
        }
        RemoveMissing(notes, id, tenantId);
        return 0;
      }
      RemovedNotesAt(notes, id, tenantId);
      assert NoteKey(id, tenantId)(notes[noteIndex]);
      SpliceKeepsIds(notes, noteIndex, nextNoteId);
      notes := notes[..noteIndex] + notes[noteIndex + 1..];
      changes := 1;
    }

    /** `countNotesByTenant`: the number of notes the tenant's listing shows. */
    function CountNotesByTenant(tenantId: int): (count: nat)
      reads this
      ensures count == |GetNotesByTenant(tenantId)|
      ensures count <= |notes|
    {
      |Filter(notes, OfTenant(tenantId))|
    }
  }
}
