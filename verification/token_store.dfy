/** The `access_tokens` and `refresh_tokens` tables and the statements on them
    (the files under infra/src/db/auth_token). */
module TokenStore {
  import opened Common
  import opened AuthTokens
  import opened Tables
  import opened Primitives

  datatype Store = Store(access: seq<AccessToken>, refresh: seq<RefreshToken>)

  function AccessKey(t: AccessToken): string {
    t.id
  }

  function RefreshKey(t: RefreshToken): string {
    t.id
  }

  /** The table constraints: `id` is the primary key of both tables, and every refresh row
      references an existing access row (the cascading foreign key). */
  ghost predicate Valid(s: Store) {
    && DistinctKeys(s.access, AccessKey)
    && DistinctKeys(s.refresh, RefreshKey)
    && forall r :: r in s.refresh ==> HasKey(s.access, AccessKey, r.accessTokenId)
  }

  /** The database-reported reason for a missing referenced access row. */
  const MissingParentReason: string := "insert or update violates foreign key constraint"

  const CreateAccessFailed: string := "Failed to create access token!"

  /** `create_access_token`: insert one row and return it as stored. A duplicate id, or any other
      database failure, is `Internal` and leaves the tables as they were. */
  function CreateAccessToken(s: Store, t: AccessToken, fault: Fault): (o: Outcome<Store, AccessToken>)
    ensures o.result.Ok? <==> fault.None? && !HasKey(s.access, AccessKey, t.id)
    ensures o.result.Ok? ==> o.result.value == t && o.state == s.(access := s.access + [t])
    ensures o.result.Err? ==> o.state == s
    ensures o.result.Err? ==> KindOf(o.result.error) == InternalKind && o.result.error.base.publicInfo == CreateAccessFailed
    ensures Valid(s) ==> Valid(o.state)
  {
    if fault.Some? then Outcome(s, Err(WithPrivate(InternalKind, CreateAccessFailed, fault.value)))
    else if HasKey(s.access, AccessKey, t.id) then Outcome(s, Err(WithPrivate(InternalKind, CreateAccessFailed, DuplicateKeyReason)))
    else
      var s' := s.(access := s.access + [t]);
      assert Valid(s) ==> Valid(s') by {
        if Valid(s) {
          AppendKeepsDistinct(s.access, AccessKey, t);
          forall r | r in s'.refresh
            ensures HasKey(s'.access, AccessKey, r.accessTokenId)
          {
            var i :| 0 <= i < |s.access| && AccessKey(s.access[i]) == r.accessTokenId;
            assert s'.access[i] == s.access[i];
          }
        }
      }
      Outcome(s', Ok(t))
  }

  const CreateRefreshFailed: string := "Failed to create refresh token!"

  /** `create_refresh_token`: as `create_access_token`; the row must also reference an existing
      access row. */
  function CreateRefreshToken(s: Store, t: RefreshToken, fault: Fault): (o: Outcome<Store, RefreshToken>)
    ensures o.result.Ok? <==>
      fault.None? && !HasKey(s.refresh, RefreshKey, t.id) && HasKey(s.access, AccessKey, t.accessTokenId)
    ensures o.result.Ok? ==> o.result.value == t && o.state == s.(refresh := s.refresh + [t])
    ensures o.result.Err? ==> o.state == s
    ensures o.result.Err? ==> KindOf(o.result.error) == InternalKind && o.result.error.base.publicInfo == CreateRefreshFailed
    ensures Valid(s) ==> Valid(o.state)
  {
    if fault.Some? then Outcome(s, Err(WithPrivate(InternalKind, CreateRefreshFailed, fault.value)))
    else if HasKey(s.refresh, RefreshKey, t.id) then Outcome(s, Err(WithPrivate(InternalKind, CreateRefreshFailed, DuplicateKeyReason)))
    else if !HasKey(s.access, AccessKey, t.accessTokenId) then Outcome(s, Err(WithPrivate(InternalKind, CreateRefreshFailed, MissingParentReason)))
    else
      var s' := s.(refresh := s.refresh + [t]);
      assert Valid(s) ==> Valid(s') by {
        if Valid(s) {
          AppendKeepsDistinct(s.refresh, RefreshKey, t);
        }
      }
      Outcome(s', Ok(t))
  }

  const GetAccessFailed: string := "Failed to retrieve access token!"

  function AccessMissing(ident: AccessIdentifier): string {
    "Access token (" + AccessIdentifierText(ident) + ") doesn't exist!"
  }

  /** `get_access_token`: the first row the identifier selects; `NotFound` when there is none;
      `Internal` on a database failure. Reads only. */
  function GetAccessToken(s: Store, ident: AccessIdentifier, fault: Fault): (r: Result<AccessToken>)
    ensures r.Ok? ==> fault.None? && r.value in s.access && MatchesAccess(ident, r.value)
    ensures fault.None? && (exists t :: t in s.access && MatchesAccess(ident, t)) ==> r.Ok?
    ensures fault.None? && (forall t :: t in s.access ==> !MatchesAccess(ident, t)) ==> r == Err(Plain(NotFoundKind, AccessMissing(ident)))
    ensures fault.Some? ==> r == Err(WithPrivate(InternalKind, GetAccessFailed, fault.value))
  {
    if fault.Some? then Err(WithPrivate(InternalKind, GetAccessFailed, fault.value))
    else match FirstWhere(s.access, t => MatchesAccess(ident, t))
      case None => Err(Plain(NotFoundKind, AccessMissing(ident)))
      case Some(t) => Ok(t)
  }

  /** With the primary key in force, looking up a row by its own id finds exactly that row. */
  lemma GetAccessByIdIsExact(s: Store, t: AccessToken)
    requires Valid(s) && t in s.access
    ensures GetAccessToken(s, AccessById(t.id), None) == Ok(t)
  {
    var found := GetAccessToken(s, AccessById(t.id), None).value;
    var i :| 0 <= i < |s.access| && s.access[i] == t;
    var j :| 0 <= j < |s.access| && s.access[j] == found;
    assert AccessKey(s.access[i]) == AccessKey(s.access[j]);
  }

  const GetRefreshFailed: string := "Failed to retrieve refresh token!"

  function RefreshMissing(ident: RefreshIdentifier): string {
    "Refresh token (" + RefreshIdentifierText(ident) + ") doesn't exist!"
  }

  /** `get_refresh_token`: as `get_access_token`, over the refresh rows. */
  function GetRefreshToken(s: Store, ident: RefreshIdentifier, fault: Fault): (r: Result<RefreshToken>)
    ensures r.Ok? ==> fault.None? && r.value in s.refresh && MatchesRefresh(ident, r.value)
    ensures fault.None? && (exists t :: t in s.refresh && MatchesRefresh(ident, t)) ==> r.Ok?
    ensures fault.None? && (forall t :: t in s.refresh ==> !MatchesRefresh(ident, t)) ==> r == Err(Plain(NotFoundKind, RefreshMissing(ident)))
    ensures fault.Some? ==> r == Err(WithPrivate(InternalKind, GetRefreshFailed, fault.value))
  {
    if fault.Some? then Err(WithPrivate(InternalKind, GetRefreshFailed, fault.value))
    else match FirstWhere(s.refresh, t => MatchesRefresh(ident, t))
      case None => Err(Plain(NotFoundKind, RefreshMissing(ident)))
      case Some(t) => Ok(t)
  }

  const DeletePairFailed: string := "Failed to delete auth token pair!"

  function PairMissing(ident: AccessIdentifier): string {
    "Auth token pair (access_token_id: " + AccessIdentifierText(ident) + ") doesn't exist!"
  }

  /** Whether a refresh row belongs to one of the given access rows. */
  predicate BelongsToAny(parents: seq<AccessToken>, r: RefreshToken) {
    exists i :: 0 <= i < |parents| && parents[i].id == r.accessTokenId
  }

  /** The refresh rows that survive deleting `deleted` and cascading. */
  function Cascade(refresh: seq<RefreshToken>, deleted: seq<AccessToken>): (r: seq<RefreshToken>)
    ensures forall t :: t in r <==> t in refresh && !BelongsToAny(deleted, t)
  {
    Remove(refresh, t => BelongsToAny(deleted, t))
  }

  /** `delete_token_pair`: delete every access row the identifier selects, and by cascade every
      refresh row belonging to one of them. Nothing selected is `NotFound`; a database failure
      is `Internal`; either way the tables stay as they were. */
  function DeleteTokenPair(s: Store, ident: AccessIdentifier, fault: Fault): (o: Outcome<Store, Unit>)
    ensures o.result.Ok? <==> fault.None? && exists t :: t in s.access && MatchesAccess(ident, t)
    ensures o.result.Err? ==> o.state == s
    ensures fault.Some? ==> o.result == Err(WithPrivate(InternalKind, DeletePairFailed, fault.value))
    ensures fault.None? && (forall t :: t in s.access ==> !MatchesAccess(ident, t)) ==>
      o.result == Err(Plain(NotFoundKind, PairMissing(ident)))
    ensures o.result.Ok? ==> forall t :: t in o.state.access <==> t in s.access && !MatchesAccess(ident, t)
    ensures o.result.Ok? ==> forall r :: r in o.state.refresh <==>
      r in s.refresh && !(exists t :: t in s.access && MatchesAccess(ident, t) && t.id == r.accessTokenId)
    ensures Valid(s) ==> Valid(o.state)
  {
    var selected := Select(s.access, t => MatchesAccess(ident, t));
    if fault.Some? then Outcome(s, Err(WithPrivate(InternalKind, DeletePairFailed, fault.value)))
    else if |selected| == 0 then
      assert forall t :: t in s.access ==> !MatchesAccess(ident, t);
      Outcome(s, Err(Plain(NotFoundKind, PairMissing(ident))))
    else
      var s' := Store(Remove(s.access, t => MatchesAccess(ident, t)), Cascade(s.refresh, selected));
      assert selected[0] in s.access;
      assert forall r :: BelongsToAny(selected, r) <==> exists t :: t in s.access && MatchesAccess(ident, t) && t.id == r.accessTokenId by {
        forall r
          ensures BelongsToAny(selected, r) <==> exists t :: t in s.access && MatchesAccess(ident, t) && t.id == r.accessTokenId
        {
          if exists t :: t in s.access && MatchesAccess(ident, t) && t.id == r.accessTokenId {
            var t :| t in s.access && MatchesAccess(ident, t) && t.id == r.accessTokenId;
            var i :| 0 <= i < |selected| && selected[i] == t;
          }
          if BelongsToAny(selected, r) {
            var i :| 0 <= i < |selected| && selected[i].id == r.accessTokenId;
            assert selected[i] in selected;
          }
        }
      }
      assert Valid(s) ==> Valid(s') by {
        if Valid(s) {
          RemoveKeepsDistinct(s.access, t => MatchesAccess(ident, t), AccessKey);
          RemoveKeepsDistinct(s.refresh, t => BelongsToAny(selected, t), RefreshKey);
          forall r | r in s'.refresh
            ensures HasKey(s'.access, AccessKey, r.accessTokenId)
          {
            var i :| 0 <= i < |s.access| && AccessKey(s.access[i]) == r.accessTokenId;
            assert s.access[i] in s'.access;
            var j :| 0 <= j < |s'.access| && s'.access[j] == s.access[i];
          }
        }
      }
      Outcome(s', Ok(Unit))
  }

  /** A pair as `get_user_tokens` reports it: both records carry the access row's user id. */
  function PairOf(a: AccessToken, r: RefreshToken): (p: AuthTokenPair)
    ensures Linked(p) && p.refresh.userId == p.access.userId
    ensures p.access == a
  {
    AuthTokenPair(a, RefreshToken(r.id, a.userId, a.id, r.jwt, r.expiresAt))
  }

  /** The joined rows for one refresh row: one pair per access row it references. */
  function JoinOne(r: RefreshToken, access: seq<AccessToken>): (ps: seq<AuthTokenPair>)
    ensures forall p :: p in ps <==> exists a :: a in access && a.id == r.accessTokenId && p == PairOf(a, r)
  {
    var parents := Select(access, (a: AccessToken) => a.id == r.accessTokenId);
    var ps := MapRows(parents, a => PairOf(a, r));
    assert forall p :: p in ps ==> exists a :: a in access && a.id == r.accessTokenId && p == PairOf(a, r) by {
      forall p | p in ps
        ensures exists a :: a in access && a.id == r.accessTokenId && p == PairOf(a, r)
      {
        var i :| 0 <= i < |ps| && ps[i] == p;
        assert parents[i] in parents;
      }
    }
    assert forall a :: a in access && a.id == r.accessTokenId ==> PairOf(a, r) in ps by {
      forall a | a in access && a.id == r.accessTokenId
        ensures PairOf(a, r) in ps
      {
        var i :| 0 <= i < |parents| && parents[i] == a;
        assert ps[i] == PairOf(a, r);
      }
    }
    ps
  }

  /** `refresh_tokens INNER JOIN access_tokens ON rt.access_token_id = at.id WHERE rt.user_id = u`. */
  function Join(refresh: seq<RefreshToken>, access: seq<AccessToken>, userId: Uuid): (ps: seq<AuthTokenPair>)
    ensures forall p :: p in ps <==>
      exists a, r :: a in access && r in refresh && r.userId == userId && a.id == r.accessTokenId && p == PairOf(a, r)
    decreases |refresh|
  {
    if |refresh| == 0 then []
    else
      var here := if refresh[0].userId == userId then JoinOne(refresh[0], access) else [];
      var rest := Join(refresh[1..], access, userId);
      assert forall r :: r in refresh <==> r == refresh[0] || r in refresh[1..];
      here + rest
  }

  function AccessExpiry(p: AuthTokenPair): int {
    p.access.expiresAt
  }

  /** `get_user_tokens`: the pairs of `userId`'s refresh rows joined with their access rows,
      latest access expiry first; `Internal` with a per-user message on a database failure. */
  function GetUserTokens(s: Store, userId: Uuid, fault: Fault): (r: Result<seq<AuthTokenPair>>)
    ensures r.Ok? <==> fault.None?
    ensures r.Err? ==> r.error == WithPrivate(InternalKind, "Failed to retrieve authentication tokens for user (" + userId + ")!", fault.value)
    ensures r.Ok? ==> SortedDesc(r.value, AccessExpiry)
    ensures r.Ok? ==> multiset(r.value) == multiset(Join(s.refresh, s.access, userId))
    ensures r.Ok? ==> forall p :: p in r.value ==> Linked(p) && p.refresh.userId == p.access.userId
    ensures r.Ok? ==> forall p :: p in r.value <==>
      exists a, t :: a in s.access && t in s.refresh && t.userId == userId && a.id == t.accessTokenId && p == PairOf(a, t)
  {
    if fault.Some? then Err(WithPrivate(InternalKind, "Failed to retrieve authentication tokens for user (" + userId + ")!", fault.value))
    else
      var joined := Join(s.refresh, s.access, userId);
      var sorted := SortDesc(joined, AccessExpiry);
      assert forall p :: p in sorted <==> p in joined by {
        forall p
          ensures p in sorted <==> p in joined
        {
          assert p in sorted <==> p in multiset(sorted);
          assert p in joined <==> p in multiset(joined);
        }
      }
      Ok(sorted)
  }
}
