/**
 * The request gates of server/middleware/authMiddleware.js: `protect`, which
 * admits a request carrying a valid token of an active user, and `adminOnly`,
 * which admits an admin. Token verification is a parameter: it gives the user
 * id the token was signed for, or `None` when the token does not verify.
 */
module AuthGate {
  import opened Wrappers
  import opened Text
  import opened Users
  import opened UserDirectory

  const NoTokenMessage := "Not authorized, no token"
  const InvalidTokenMessage := "Token invalid or expired"
  const InactiveMessage := "User not found or deactivated"
  const AdminOnlyMessage := "Access denied. Admins only."

  /** What a gate does with a request: hand it on, or answer with a status and a message. */
  datatype Verdict =
    | Next
    | Deny(status: nat, message: string)

  /** What `protect` does: hand the request on with the user attached, or answer it. */
  datatype ProtectOutcome =
    | Admitted(user: PublicUser)
    | Refused(status: nat, message: string)

  predicate StartsWith(s: string, prefix: string)
  {
    |prefix| <= |s| && s[..|prefix|] == prefix
  }

  /**
   * The token of an `Authorization` header: the second space-separated piece
   * of a header starting with "Bearer", when that piece exists and is not
   * empty; `None` stands for a falsy token.
   */
  function ExtractToken(header: Option<string>): (token: Option<string>)
  {
    if Truthy(header) && StartsWith(header.value, "Bearer") then
      var pieces := Split(header.value, ' ');
      if |pieces| >= 2 && pieces[1] != "" then Some(pieces[1]) else None
    else None
  }

  /** A header "Bearer <t>", alone or followed by a space and anything, yields `t` when `t` is a non-empty run without spaces. */
  lemma {:induction false} BearerToken(t: string, tail: string)
    requires t != "" && ' ' !in t
    requires tail == "" || tail[0] == ' '
    ensures ExtractToken(Some("Bearer " + t + tail)) == Some(t)
  {
    var h := "Bearer " + t + tail;
    assert h == "Bearer" + (" " + (t + tail));
    assert StartsWith(h, "Bearer");
    SplitAppend("Bearer", " " + (t + tail), ' ');
    var after := Split(" " + (t + tail), ' ');
    assert (" " + (t + tail))[1..] == t + tail;
    assert after == [[]] + Split(t + tail, ' ');
    SplitAppend(t, tail, ' ');
    var rest := Split(tail, ' ');
    if tail == "" {
      assert rest == [[]];
    } else {
      assert tail == [' '] + tail[1..];
      assert rest[0] == [];
    }
    assert Split(t + tail, ' ')[0] == t;
  }

  /** An extracted token comes from a header starting with "Bearer", is not empty and holds no space. */
  lemma ExtractedToken(header: Option<string>)
    requires ExtractToken(header).Some?
    ensures header.Some? && StartsWith(header.value, "Bearer")
    ensures ExtractToken(header).value != "" && ' ' !in ExtractToken(header).value
  {
    SplitPieces(header.value, ' ');
    assert Split(header.value, ' ')[1] in Split(header.value, ' ');
  }

  /**
   * `protect`: the token is taken from the header, verified, and the user it
   * names is loaded without the password; the request goes on only for an
   * existing, active user.
   */
  method Protect(header: Option<string>, verify: string -> Option<nat>, users: seq<User>)
    returns (out: ProtectOutcome)
    requires DistinctIds(users)
    ensures ExtractToken(header).None? ==> out == Refused(401, NoTokenMessage)
    ensures ExtractToken(header).Some? && verify(ExtractToken(header).value).None? ==>
      out == Refused(401, InvalidTokenMessage)
    ensures out.Refused? ==> out.status == 401
    ensures ExtractToken(header).Some? && verify(ExtractToken(header).value).Some? && out.Refused? ==>
      out.message == InactiveMessage
    ensures out.Admitted? <==>
      && ExtractToken(header).Some? && verify(ExtractToken(header).value).Some?
      && exists u :: u in users && u.id == verify(ExtractToken(header).value).value && u.isActive
    ensures out.Admitted? ==>
      exists u :: u in users && u.id == verify(ExtractToken(header).value).value && u.isActive && out.user == Public(u)
  {
    var token := None;
    if Truthy(header) && StartsWith(header.value, "Bearer") {
      var pieces := Split(header.value, ' ');
      if |pieces| >= 2 && pieces[1] != "" {
        token := Some(pieces[1]);
      }
    }
    if token.None? {
      return Refused(401, NoTokenMessage);
    }
    var decoded := verify(token.value);
    if decoded.None? {
      return Refused(401, InvalidTokenMessage);
    }
    var k := IndexOfUser(users, decoded.value);
    if k.None? {
      return Refused(401, InactiveMessage);
    }
    if !users[k.value].isActive {
      OnlyHolder(users, k.value);
      return Refused(401, InactiveMessage);
    }
    out := Admitted(Public(users[k.value]));
  }

  /** The database gives every user its own id. */
  ghost predicate DistinctIds(users: seq<User>)
  {
    forall i, j :: 0 <= i < j < |users| ==> users[i].id != users[j].id
  }

  /** With distinct ids, the user at position `k` is the only one holding its id. */
  lemma OnlyHolder(users: seq<User>, k: nat)
    requires DistinctIds(users) && k < |users|
    ensures forall u :: u in users && u.id == users[k].id ==> u == users[k]
  {
    forall u | u in users && u.id == users[k].id
      ensures u == users[k]
    {
      var j :| 0 <= j < |users| && users[j] == u;
      assert !(j < k) && !(k < j);
    }
  }

  /** `adminOnly`: a request with an attached admin goes on; any other gets 403. */
  function AdminOnly(user: Option<PublicUser>): (v: Verdict)
    ensures v == Next <==> user.Some? && user.value.role == Admin
    ensures v != Next ==> v == Deny(403, AdminOnlyMessage)
  {
    if user.Some? && user.value.role == Admin then Next else Deny(403, AdminOnlyMessage)
  }

  /**
   * `protect` followed by `adminOnly`, as the admin routes and the statistics
   * route are mounted: the handler runs only for a verified token of an
   * existing, active admin; an existing, active staff member gets 403, and
   * every other refused request gets the 401 of `protect`.
   */
  method AdminGate(header: Option<string>, verify: string -> Option<nat>, users: seq<User>)
    returns (v: Verdict)
    requires DistinctIds(users)
    ensures v == Next <==>
      && ExtractToken(header).Some? && verify(ExtractToken(header).value).Some?
      && exists u :: u in users && u.id == verify(ExtractToken(header).value).value && u.isActive && u.role == Admin
    ensures v == Deny(403, AdminOnlyMessage) <==>
      && ExtractToken(header).Some? && verify(ExtractToken(header).value).Some?
      && exists u :: u in users && u.id == verify(ExtractToken(header).value).value && u.isActive && u.role == Staff
    ensures v != Next && v != Deny(403, AdminOnlyMessage) ==> v.status == 401
  {
    var out := Protect(header, verify, users);
    if out.Refused? {
      return Deny(out.status, out.message);
    }
    v := AdminOnly(Some(out.user));
    var u :| u in users && u.id == verify(ExtractToken(header).value).value && u.isActive && out.user == Public(u);
    OnlyHolderOf(users, u);
  }

  /** With distinct ids, a user is the only one holding its id. */
  lemma OnlyHolderOf(users: seq<User>, u: User)
    requires DistinctIds(users) && u in users
    ensures forall w :: w in users && w.id == u.id ==> w == u
  {
    var k :| 0 <= k < |users| && users[k] == u;
    OnlyHolder(users, k);
  }
}
