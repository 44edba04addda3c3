/** Organization members and invitations under row-level security: the policies, the claim of an
    invitation, and what runs of sessions without an acting owner can do. */
module Membership {
  import opened Wrappers
  import Text

  type Id = string

  datatype Role = Owner | Admin | Member | Viewer {
    predicate Privileged() {
      Owner? || Admin?
    }
  }

  /** The session settings app.organization_id and app.user_id; an empty setting reads as NULL. */
  datatype Session = Session(organization: Option<Id>, user: Option<Id>)

  /** Member rows by (organization, user), invitation rows by (organization, normalized email),
      user rows by id with their subject, and organization rows with their slug. */
  datatype Directory = Directory(
    members: map<(Id, Id), Role>,
    invitations: map<(Id, string), Role>,
    users: map<Id, string>,
    slugs: map<Id, string>)

  // ----- Policies -----

  function ActorRole(d: Directory, s: Session): Option<Role> {
    if s.organization.Some? && s.user.Some? && (s.organization.value, s.user.value) in d.members then
      Some(d.members[(s.organization.value, s.user.value)])
    else None
  }

  predicate HasMembers(d: Directory, organization: Id) {
    exists k :: k in d.members && k.0 == organization
  }

  /** Owners manage every row of their organization, admins the rows of members and viewers. */
  predicate Manages(d: Directory, s: Session, organization: Id, role: Role) {
    s.organization == Some(organization)
    && (ActorRole(d, s) == Some(Owner) || (ActorRole(d, s) == Some(Admin) && !role.Privileged()))
  }

  /** The bootstrap arm: an organization without members accepts its first owner. */
  predicate Bootstraps(d: Directory, s: Session, organization: Id, role: Role) {
    s.organization == Some(organization)
    && ActorRole(d, s).None? && !HasMembers(d, organization) && role == Owner
  }

  predicate MayInsertMember(d: Directory, s: Session, organization: Id, user: Id, role: Role) {
    Manages(d, s, organization, role) || (Bootstraps(d, s, organization, role) && s.user == Some(user))
  }

  predicate MayInsertInvitation(d: Directory, s: Session, organization: Id, role: Role) {
    Manages(d, s, organization, role) || Bootstraps(d, s, organization, role)
  }

  // ----- Statements -----

  datatype Statement =
    | InsertMember(organization: Id, user: Id, role: Role)
    | UpdateMember(organization: Id, user: Id, newOrganization: Id, newUser: Id, newRole: Role)
    | DeleteMember(organization: Id, user: Id)
    | InsertInvitation(organization: Id, email: string, role: Role)
    | DeleteInvitation(organization: Id, email: string)
    | ClaimInvitation(organization: Id, user: Id, subject: string, email: string)

  /** SQL's trim(): spaces only. */
  function TrimSpaces(s: string): string {
    if s != "" && s[0] == ' ' then TrimSpaces(s[1..])
    else if s != "" && s[|s| - 1] == ' ' then TrimSpaces(s[..|s| - 1])
    else s
  }

  function NormalizeEmail(email: string): string {
    Text.Lower(TrimSpaces(email))
  }

  datatype ClaimError = ContextMismatch

  /** claim_organization_invitation: the directory afterwards and the role granted, if any. */
  function Claim(d: Directory, s: Session, organization: Id, user: Id, subject: string, email: string)
    : (Directory, Result<Option<Role>, ClaimError>)
  {
    var key := (organization, NormalizeEmail(email));
    if s != Session(Some(organization), Some(user)) then (d, Err(ContextMismatch))
    else if key.1 == "" || key !in d.invitations then (d, Ok(None))
    else
      var role := d.invitations[key];
      (d.(users := if user in d.users then d.users else d.users[user := subject],
          members := d.members[(organization, user) := role],
          invitations := d.invitations - {key}),
       Ok(Some(role)))
  }

  /** One statement of a session; a statement that the policies or a primary key refuse, or that
      matches no row, changes nothing. */
  function Execute(d: Directory, s: Session, statement: Statement): Directory {
    match statement
    case InsertMember(organization, user, role) =>
      if (organization, user) !in d.members && MayInsertMember(d, s, organization, user, role) then
        d.(members := d.members[(organization, user) := role])
      else d
    case UpdateMember(organization, user, newOrganization, newUser, newRole) =>
      var key, newKey := (organization, user), (newOrganization, newUser);
      if key in d.members && Manages(d, s, organization, d.members[key])
         && Manages(d, s, newOrganization, newRole) && (newKey == key || newKey !in d.members)
      then d.(members := (d.members - {key})[newKey := newRole])
      else d
    case DeleteMember(organization, user) =>
      var key := (organization, user);
      if key in d.members && Manages(d, s, organization, d.members[key]) then
        d.(members := d.members - {key})
      else d
    case InsertInvitation(organization, email, role) =>
      if (organization, email) !in d.invitations && MayInsertInvitation(d, s, organization, role) then
        d.(invitations := d.invitations[(organization, email) := role])
      else d
    case DeleteInvitation(organization, email) =>
      var key := (organization, email);
      if key in d.invitations && Manages(d, s, organization, d.invitations[key]) then
        d.(invitations := d.invitations - {key})
      else d
    case ClaimInvitation(organization, user, subject, email) =>
      Claim(d, s, organization, user, subject, email).0
  }

  type Run = seq<(Session, Statement)>

  function After(d: Directory, run: Run): Directory {
    if run == [] then d
    else
      var (s, statement) := run[|run| - 1];
      Execute(After(d, run[..|run| - 1]), s, statement)
  }

  // ----- Signing in -----

  datatype Identity = Identity(organization: Id, user: Id, slug: string, subject: string)

  datatype SignIn = Granted(role: Role) | Refused

  /** The membership a signed-in identity already has. */
  function Membership(d: Directory, i: Identity): Option<Role> {
    if (i.organization, i.user) in d.members
       && i.organization in d.slugs && d.slugs[i.organization] == i.slug
       && i.user in d.users && d.users[i.user] == i.subject
    then Some(d.members[(i.organization, i.user)])
    else None
  }

  function Authorize(d: Directory, i: Identity, verifiedEmail: Option<string>): (Directory, SignIn) {
    match Membership(d, i)
    case Some(role) => (d, Granted(role))
    case None =>
      if verifiedEmail.None? || Text.Strip(verifiedEmail.value) == "" then (d, Refused)
      else
        var (d', claimed) := Claim(d, Session(Some(i.organization), Some(i.user)),
          i.organization, i.user, i.subject, Text.Strip(verifiedEmail.value));
        (d', if claimed.Ok? && claimed.value.Some? then Granted(claimed.value.value) else Refused)
  }

  class Database {
    var members: map<(Id, Id), Role>
    var invitations: map<(Id, string), Role>
    var users: map<Id, string>
    var slugs: map<Id, string>

    function Rows(): Directory
      reads this
    {
      Directory(members, invitations, users, slugs)
    }

    constructor (d: Directory)
      ensures Rows() == d
    {
      members, invitations, users, slugs := d.members, d.invitations, d.users, d.slugs;
    }

    /** The stored procedure, row by row. */
    method ClaimOrganizationInvitation(s: Session, organization: Id, user: Id, subject: string, email: string)
      returns (r: Result<Option<Role>, ClaimError>)
      modifies this`members, this`invitations, this`users
      ensures (Rows(), r) == Claim(old(Rows()), s, organization, user, subject, email)
    {
      if s.organization != Some(organization) { return Err(ContextMismatch); }
      if s.user != Some(user) { return Err(ContextMismatch); }
      var normalized := NormalizeEmail(email);
      if normalized == "" { return Ok(None); }
      if (organization, normalized) !in invitations { return Ok(None); }
      var role := invitations[(organization, normalized)];
      if user !in users {
        users := users[user := subject];
      }
      members := members[(organization, user) := role];
      invitations := invitations - {(organization, normalized)};
      return Ok(Some(role));
    }

    method AuthorizeTenant(i: Identity, verifiedEmail: Option<string>) returns (r: SignIn)
      modifies this
      ensures (Rows(), r) == Authorize(old(Rows()), i, verifiedEmail)
    {
      var existing := Membership(Rows(), i);
      if existing.Some? { return Granted(existing.value); }
      if verifiedEmail.None? || Text.Strip(verifiedEmail.value) == "" { return Refused; }
      var claimed := ClaimOrganizationInvitation(
        Session(Some(i.organization), Some(i.user)), i.organization, i.user, i.subject,
        Text.Strip(verifiedEmail.value));
      if claimed.Err? || claimed.value.None? { return Refused; }
      return Granted(claimed.value.value);
    }
  }

  // ----- What a normalized address is -----

  /** The address as looked up: the email without the spaces around it, its ASCII letters lowered. */
  ghost predicate IsAddress(email: string, address: string) {
    exists i, j :: 0 <= i <= j <= |email| && IsCore(email, i, j) && IsLowered(email[i..j], address)
  }

  /** Only spaces lie outside i..j, and none at its ends. */
  ghost predicate IsCore(email: string, i: nat, j: nat)
    requires i <= j <= |email|
  {
    && (forall k :: 0 <= k < i ==> email[k] == ' ') && (forall k :: j <= k < |email| ==> email[k] == ' ')
    && (i < j ==> email[i] != ' ' && email[j - 1] != ' ')
  }

  ghost predicate IsLowered(s: string, lowered: string) {
    |lowered| == |s| && forall k :: 0 <= k < |s| ==>
      lowered[k] as int == if 'A' <= s[k] <= 'Z' then s[k] as int + 32 else s[k] as int
  }

  lemma {:induction false} TrimCore(s: string) returns (i: nat, j: nat)
    ensures i <= j <= |s| && TrimSpaces(s) == s[i..j] && IsCore(s, i, j)
    decreases |s|
  {
    if s != "" && s[0] == ' ' {
      var i', j' := TrimCore(s[1..]);
      i, j := i' + 1, j' + 1;
      assert forall k :: 1 <= k < |s| ==> s[k] == s[1..][k - 1];
    } else if s != "" && s[|s| - 1] == ' ' {
      i, j := TrimCore(s[..|s| - 1]);
    } else {
      i, j := 0, |s|;
    }
  }

  lemma LowerMeans(s: string, lowered: string)
    ensures IsLowered(s, lowered) <==> lowered == Text.Lower(s)
  {
    if IsLowered(s, lowered) {
      forall k | 0 <= k < |s| ensures lowered[k] == Text.Lower(s)[k] {
        assert lowered[k] as int == Text.LowerChar(s[k]) as int;
      }
    }
  }

  lemma CoresAgree(s: string, i: nat, j: nat, i': nat, j': nat)
    requires i <= j <= |s| && i' <= j' <= |s| && IsCore(s, i, j) && IsCore(s, i', j')
    ensures s[i..j] == s[i'..j']
  {
    if i < j && i' < j' { assert i == i' && j == j'; }
  }

  /** Normalization computes the address, and there is only one. */
  lemma NormalizeMeans(email: string, address: string)
    ensures IsAddress(email, address) <==> address == NormalizeEmail(email)
  {
    var i, j := TrimCore(email);
    LowerMeans(email[i..j], NormalizeEmail(email));
    if IsAddress(email, address) {
      var i', j' :| 0 <= i' <= j' <= |email| && IsCore(email, i', j') && IsLowered(email[i'..j'], address);
      CoresAgree(email, i, j, i', j');
      LowerMeans(email[i..j], address);
    }
  }

  // ----- Claims and sign-ins -----

  /** The invitation pending in the organization for the email's address has the role. */
  ghost predicate Invited(d: Directory, organization: Id, email: string, role: Role) {
    exists address: string ::
      && IsAddress(email, address) && address != ""
      && (organization, address) in d.invitations && d.invitations[(organization, address)] == role
  }

  /** A claim raises exactly when the session is not the user's own in that organization; otherwise it
      grants exactly the role of the pending invitation, with the member row and, for a new user,
      the user row that go with it; and it changes nothing unless it grants. */
  lemma ClaimGrantsIff(d: Directory, s: Session, organization: Id, user: Id, subject: string, email: string, role: Role)
    ensures
      var (d', r) := Claim(d, s, organization, user, subject, email);
      && (r.Err? <==> s.organization != Some(organization) || s.user != Some(user))
      && (r == Ok(Some(role)) <==> r.Ok? && Invited(d, organization, email, role))
      && (r == Ok(Some(role)) ==>
            && d'.members == d.members[(organization, user) := role]
            && d'.users == (if user in d.users then d.users else d.users[user := subject])
            && d'.slugs == d.slugs
            && forall address :: IsAddress(email, address) ==> d'.invitations == d.invitations - {(organization, address)})
      && (r.Err? || r.value.None? ==> d' == d)
  {
    NormalizeMeans(email, NormalizeEmail(email));
    forall address | IsAddress(email, address) ensures address == NormalizeEmail(email) {
      NormalizeMeans(email, address);
    }
  }

  /** The identity is a member with this role: the member row, the organization row with its slug and
      the user row with its subject are all there. */
  ghost predicate Joined(d: Directory, i: Identity, role: Role) {
    && (i.organization, i.user) in d.members && d.members[(i.organization, i.user)] == role
    && i.organization in d.slugs && d.slugs[i.organization] == i.slug
    && i.user in d.users && d.users[i.user] == i.subject
  }

  ghost predicate IsBlank(s: string) {
    forall k :: 0 <= k < |s| ==> Text.IsSpace(s[k])
  }

  /** Signing in grants a role exactly when the identity is a member with it, or is no member and its
      verified email is not blank and was invited to it. */
  lemma SignInGrantsIff(d: Directory, i: Identity, verifiedEmail: Option<string>, role: Role)
    ensures Authorize(d, i, verifiedEmail).1 == Granted(role) <==>
      || Joined(d, i, role)
      || ((forall r :: !Joined(d, i, r)) && verifiedEmail.Some? && !IsBlank(verifiedEmail.value)
          && Invited(d, i.organization, Text.Strip(verifiedEmail.value), role))
  {
    assert forall r :: Joined(d, i, r) <==> Membership(d, i) == Some(r);
    assert Membership(d, i).None? <==> forall r :: !Joined(d, i, r) by {
      if Membership(d, i).Some? { assert Joined(d, i, Membership(d, i).value); }
    }
    if verifiedEmail.Some? {
      var email := Text.Strip(verifiedEmail.value);
      Text.StripBlank(verifiedEmail.value);
      ClaimGrantsIff(d, Session(Some(i.organization), Some(i.user)), i.organization, i.user, i.subject, email, role);
    }
  }

  /** A granted identity is known from then on: a second sign-in needs no email and grants the same
      role, exactly when the slug is the organization's and the user row, if there was one, has the
      identity's subject. */
  lemma SecondSignIn(d: Directory, i: Identity, verifiedEmail: Option<string>)
    requires Authorize(d, i, verifiedEmail).1.Granted?
    ensures
      var (d', first) := Authorize(d, i, verifiedEmail);
      Authorize(d', i, None) == (d', first) <==>
        && i.organization in d.slugs && d.slugs[i.organization] == i.slug
        && (i.user in d.users ==> d.users[i.user] == i.subject)
  {
  }

  /** A role is granted only to a user who then holds it, a known membership consumes nothing, and an
      invitation is consumed exactly when it is what granted the role. */
  lemma GrantedRoleIsHeld(d: Directory, i: Identity, verifiedEmail: Option<string>)
    ensures
      var (d', r) := Authorize(d, i, verifiedEmail);
      && (r.Granted? ==> (i.organization, i.user) in d'.members && d'.members[(i.organization, i.user)] == r.role)
      && (r.Refused? ==> d' == d)
      && (Membership(d, i).Some? ==> d' == d && r == Granted(Membership(d, i).value))
      && (d' != d ==>
            var key := (i.organization, NormalizeEmail(Text.Strip(verifiedEmail.value)));
            r.Granted? && key in d.invitations && d.invitations[key] == r.role && key !in d'.invitations)
  {
  }

  /** No statement of the run inserts the invitation at `key`. */
  ghost predicate NeverInserted(run: Run, key: (Id, string)) {
    forall i :: 0 <= i < |run| && run[i].1.InsertInvitation? ==> (run[i].1.organization, run[i].1.email) != key
  }

  lemma {:induction false} ConsumedStaysAway(d: Directory, run: Run, key: (Id, string))
    requires key !in d.invitations && NeverInserted(run, key)
    ensures key !in After(d, run).invitations
  {
    if run != [] {
      var before, last := run[..|run| - 1], run[|run| - 1];
      assert forall i :: 0 <= i < |before| ==> before[i] == run[i];
      ConsumedStaysAway(d, before, key);
      assert last.1.InsertInvitation? ==> (last.1.organization, last.1.email) != key;
    }
  }

  /** An invitation grants a role at most once: after a successful claim and any run of any sessions
      that does not insert the invitation again, a claim by anyone for any spelling of the same
      address grants nothing and changes nothing. */
  lemma InvitationGrantsOnce(d: Directory, s: Session, organization: Id, user: Id, subject: string, email: string,
                             run: Run, s': Session, user': Id, subject': string, email': string)
    requires Claim(d, s, organization, user, subject, email).1.Ok?
    requires Claim(d, s, organization, user, subject, email).1.value.Some?
    requires NeverInserted(run, (organization, NormalizeEmail(email)))
    requires NormalizeEmail(email') == NormalizeEmail(email)
    ensures
      var d' := After(Claim(d, s, organization, user, subject, email).0, run);
      var again := Claim(d', s', organization, user', subject', email');
      again.0 == d' && (again.1 == Ok(None) || again.1 == Err(ContextMismatch))
  {
    ConsumedStaysAway(Claim(d, s, organization, user, subject, email).0, run, (organization, NormalizeEmail(email)));
  }

  /** Whose rows a session may write: an owner's any, an admin's those of members and viewers. */
  ghost predicate Rules(d: Directory, s: Session, organization: Id, role: Role) {
    && s.organization == Some(organization) && s.user.Some? && (organization, s.user.value) in d.members
    && var own := d.members[(organization, s.user.value)];
       own == Owner || (own == Admin && (role == Member || role == Viewer))
  }

  /** A session without a role in an organization without members may make its first owner. */
  ghost predicate Founds(d: Directory, s: Session, organization: Id, role: Role) {
    s.organization == Some(organization) && role == Owner && forall u :: (organization, u) !in d.members
  }

  lemma RulesMeans(d: Directory, s: Session, organization: Id, role: Role)
    ensures Manages(d, s, organization, role) <==> Rules(d, s, organization, role)
    ensures Bootstraps(d, s, organization, role) <==> Founds(d, s, organization, role)
  {
    if Founds(d, s, organization, role) {
      forall k | k in d.members ensures k.0 != organization {
        assert k == (k.0, k.1);
      }
    }
  }

  /** The row a statement on a member touches, allowed or not, and the directory if it is allowed. */
  lemma MemberStatements(d: Directory, s: Session, organization: Id, user: Id, to: (Id, Id), role: Role)
    ensures
      var key := (organization, user);
      && Execute(d, s, InsertMember(organization, user, role)) ==
           (if key !in d.members
               && (Rules(d, s, organization, role) || (Founds(d, s, organization, role) && s.user == Some(user)))
            then d.(members := d.members[key := role]) else d)
      && Execute(d, s, DeleteMember(organization, user)) ==
           (if key in d.members && Rules(d, s, organization, d.members[key])
            then d.(members := d.members - {key}) else d)
      && Execute(d, s, UpdateMember(organization, user, to.0, to.1, role)) ==
           (if key in d.members && Rules(d, s, organization, d.members[key]) && Rules(d, s, to.0, role)
               && (to == key || to !in d.members)
            then d.(members := (d.members - {key})[to := role]) else d)
  {
    RulesMeans(d, s, organization, role);
    RulesMeans(d, s, to.0, role);
    if (organization, user) in d.members { RulesMeans(d, s, organization, d.members[(organization, user)]); }
  }

  /** The same for invitations, which anyone in a memberless organization may issue to an owner. */
  lemma InvitationStatements(d: Directory, s: Session, organization: Id, email: string, role: Role)
    ensures
      var key := (organization, email);
      && Execute(d, s, InsertInvitation(organization, email, role)) ==
           (if key !in d.invitations && (Rules(d, s, organization, role) || Founds(d, s, organization, role))
            then d.(invitations := d.invitations[key := role]) else d)
      && Execute(d, s, DeleteInvitation(organization, email)) ==
           (if key in d.invitations && Rules(d, s, organization, d.invitations[key])
            then d.(invitations := d.invitations - {key}) else d)
  {
    RulesMeans(d, s, organization, role);
    if (organization, email) in d.invitations { RulesMeans(d, s, organization, d.invitations[(organization, email)]); }
  }

  // ----- Tenant isolation -----

  ghost predicate SameOrganization(d: Directory, d': Directory, organization: Id) {
    && (forall u :: (organization, u) in d.members <==> (organization, u) in d'.members)
    && (forall u :: (organization, u) in d.members ==> d.members[(organization, u)] == d'.members[(organization, u)])
    && (forall e :: (organization, e) in d.invitations <==> (organization, e) in d'.invitations)
    && (forall e :: (organization, e) in d.invitations ==>
          d.invitations[(organization, e)] == d'.invitations[(organization, e)])
  }

  /** A session touches the rows of no organization but its own. */
  lemma TenantIsolation(d: Directory, s: Session, statement: Statement, organization: Id)
    requires s.organization != Some(organization)
    ensures SameOrganization(d, Execute(d, s, statement), organization)
  {
  }

  // ----- Runs in which no owner acts -----

  /** No statement other than a claim is executed by an owner of the organization. */
  ghost predicate NoOwnerActs(d: Directory, run: Run, organization: Id) {
    forall i :: 0 <= i < |run| && run[i].0.organization == Some(organization) && !run[i].1.ClaimInvitation?
      ==> ActorRole(After(d, run[..i]), run[i].0) != Some(Owner)
  }

  ghost function PrivilegedMembers(d: Directory, organization: Id): set<(Id, Id)> {
    set k | k in d.members && k.0 == organization && d.members[k].Privileged()
  }

  ghost function PrivilegedInvitations(d: Directory, organization: Id): set<(Id, string)> {
    set k | k in d.invitations && k.0 == organization && d.invitations[k].Privileged()
  }

  /** Owners and admins, present and invited. */
  ghost function Privileges(d: Directory, organization: Id): nat {
    |PrivilegedMembers(d, organization)| + |PrivilegedInvitations(d, organization)|
  }

  /** The statement is a claim in the organization that consumes the invitation at `key`. */
  ghost predicate Consumes(d: Directory, s: Session, statement: Statement, organization: Id, key: (Id, string)) {
    && statement.ClaimInvitation? && statement.organization == organization == key.0
    && s == Session(Some(organization), Some(statement.user))
    && key.1 == NormalizeEmail(statement.email) && key.1 != "" && key in d.invitations
  }

  /** Without an acting owner, a statement other than a consuming claim leaves every privileged row
      as it is, adds none, and leaves at least one member behind. */
  lemma UnprivilegedStatement(d: Directory, s: Session, statement: Statement, organization: Id)
    requires HasMembers(d, organization)
    requires s.organization == Some(organization) && !statement.ClaimInvitation? ==> ActorRole(d, s) != Some(Owner)
    requires forall key :: !Consumes(d, s, statement, organization, key)
    ensures
      var d' := Execute(d, s, statement);
      && PrivilegedMembers(d', organization) == PrivilegedMembers(d, organization)
      && PrivilegedInvitations(d', organization) == PrivilegedInvitations(d, organization)
      && (forall k :: k in PrivilegedMembers(d, organization) ==> d'.members[k] == d.members[k])
      && (forall k :: k in PrivilegedInvitations(d, organization) ==> d'.invitations[k] == d.invitations[k])
      && HasMembers(d', organization)
  {
    var d' := Execute(d, s, statement);
    if s.organization != Some(organization) {
      TenantIsolation(d, s, statement, organization);
      var k :| k in d.members && k.0 == organization;
      assert k == (organization, k.1);
      assert k in d'.members;
      assert forall k: (Id, Id) :: k.0 == organization ==> k == (organization, k.1);
      assert forall k: (Id, string) :: k.0 == organization ==> k == (organization, k.1);
    } else {
      ManagedStatement(d, s, statement, organization);
    }
  }

  lemma ManagedStatement(d: Directory, s: Session, statement: Statement, organization: Id)
    requires HasMembers(d, organization)
    requires s.organization == Some(organization)
    requires !statement.ClaimInvitation? ==> ActorRole(d, s) != Some(Owner)
    requires forall key :: !Consumes(d, s, statement, organization, key)
    ensures
      var d' := Execute(d, s, statement);
      && PrivilegedMembers(d', organization) == PrivilegedMembers(d, organization)
      && PrivilegedInvitations(d', organization) == PrivilegedInvitations(d, organization)
      && (forall k :: k in PrivilegedMembers(d, organization) ==> d'.members[k] == d.members[k])
      && (forall k :: k in PrivilegedInvitations(d, organization) ==> d'.invitations[k] == d.invitations[k])
      && HasMembers(d', organization)
  {
    var d' := Execute(d, s, statement);
    if statement.ClaimInvitation? {
      assert !Consumes(d, s, statement, organization, (organization, NormalizeEmail(statement.email)));
      assert d' == d;
    } else if d' != d {
      assert ActorRole(d, s) == Some(Admin);
      var actor := (organization, s.user.value);
      assert actor in d'.members;
    }
  }

  /** A consuming claim turns one invitation into at most one membership with the same role. */
  lemma ConsumingClaim(d: Directory, s: Session, statement: Statement, organization: Id, key: (Id, string))
    requires Consumes(d, s, statement, organization, key)
    ensures
      var d' := Execute(d, s, statement);
      var claimed := (organization, statement.user);
      && claimed in d'.members && d'.members[claimed] == d.invitations[key]
      && (forall k :: k in d.members && k != claimed ==> k in d'.members && d'.members[k] == d.members[k])
      && (forall k :: k in d'.members && k != claimed ==> k in d.members)
      && d'.invitations == d.invitations - {key}
      && HasMembers(d', organization)
  {
    assert (organization, statement.user) in Execute(d, s, statement).members;
  }

  /** Exchanging a pending invitation for a membership cannot raise the count. */
  lemma ExchangeKeepsCount(d: Directory, d': Directory, organization: Id, claimed: (Id, Id), key: (Id, string))
    requires key in d.invitations && key.0 == organization == claimed.0
    requires d'.invitations == d.invitations - {key}
    requires claimed in d'.members && d'.members[claimed] == d.invitations[key]
    requires forall k :: k in d'.members && k != claimed ==> k in d.members && d'.members[k] == d.members[k]
    ensures Privileges(d', organization) <= Privileges(d, organization)
  {
    var members, members' := PrivilegedMembers(d, organization), PrivilegedMembers(d', organization);
    var invitations, invitations' := PrivilegedInvitations(d, organization), PrivilegedInvitations(d', organization);
    assert invitations' == invitations - {key};
    assert members' <= members + {claimed};
    if key in invitations {
      Exchange(members, members', claimed, invitations, key);
    } else {
      assert claimed !in members';
      SubsetSize(members', members);
    }
  }

  lemma Exchange<A, B>(members: set<A>, members': set<A>, claimed: A, invitations: set<B>, key: B)
    requires members' <= members + {claimed} && key in invitations
    ensures |members'| + |invitations - {key}| <= |members| + |invitations|
  {
    SubsetSize(members', members + {claimed});
  }

  lemma {:induction false} SubsetSize<T>(a: set<T>, b: set<T>)
    requires a <= b
    ensures |a| <= |b|
  {
    if a != {} {
      var x :| x in a;
      SubsetSize(a - {x}, b - {x});
    }
  }

  lemma {:induction false} OwnerlessPrefix(d: Directory, run: Run, organization: Id)
    requires run != [] && NoOwnerActs(d, run, organization)
    ensures NoOwnerActs(d, run[..|run| - 1], organization)
  {
    var before := run[..|run| - 1];
    forall i | 0 <= i < |before| && before[i].0.organization == Some(organization) && !before[i].1.ClaimInvitation?
      ensures ActorRole(After(d, before[..i]), before[i].0) != Some(Owner)
    {
      assert before[..i] == run[..i] && before[i] == run[i];
    }
  }

  /** In an organization with a member, along any run of any sessions in which no owner of it acts,
      owners and admins present and invited never grow in number and the organization never loses
      its last member, so the bootstrap arms stay off. */
  lemma {:induction false} PrivilegesNeverGrow(d: Directory, run: Run, organization: Id)
    requires HasMembers(d, organization) && NoOwnerActs(d, run, organization)
    ensures Privileges(After(d, run), organization) <= Privileges(d, organization)
    ensures HasMembers(After(d, run), organization)
  {
    if run != [] {
      var before := run[..|run| - 1];
      var (s, statement) := run[|run| - 1];
      OwnerlessPrefix(d, run, organization);
      PrivilegesNeverGrow(d, before, organization);
      var d1 := After(d, before);
      if key :| Consumes(d1, s, statement, organization, key) {
        ConsumingClaim(d1, s, statement, organization, key);
        ExchangeKeepsCount(d1, After(d, run), organization, (organization, statement.user), key);
      } else {
        UnprivilegedStatement(d1, s, statement, organization);
      }
    }
  }

  /** Some claim by the user in the run consumed the invitation for this address. */
  ghost predicate Claimed(d: Directory, run: Run, organization: Id, user: Id, email: string) {
    exists i :: 0 <= i < |run|
      && run[i].1.ClaimInvitation? && run[i].1.user == user
      && Consumes(After(d, run[..i]), run[i].0, run[i].1, organization, (organization, email))
  }

  lemma ClaimedExtends(d: Directory, run: Run, organization: Id, user: Id, email: string)
    requires run != [] && Claimed(d, run[..|run| - 1], organization, user, email)
    ensures Claimed(d, run, organization, user, email)
  {
    var before := run[..|run| - 1];
    var i :| 0 <= i < |before| && before[i].1.ClaimInvitation? && before[i].1.user == user
      && Consumes(After(d, before[..i]), before[i].0, before[i].1, organization, (organization, email));
    assert before[..i] == run[..i] && before[i] == run[i];
  }

  lemma ClaimedLast(d: Directory, run: Run, organization: Id, key: (Id, string))
    requires run != [] && Consumes(After(d, run[..|run| - 1]), run[|run| - 1].0, run[|run| - 1].1, organization, key)
    ensures Claimed(d, run, organization, run[|run| - 1].1.user, key.1)
  {
    assert key == (organization, key.1);
    assert Consumes(After(d, run[..|run| - 1]), run[|run| - 1].0, run[|run| - 1].1, organization, (organization, key.1));
  }

  ghost predicate Explained(d: Directory, run: Run, organization: Id, user: Id, role: Role) {
    || ((organization, user) in d.members && d.members[(organization, user)] == role)
    || exists email ::
         (organization, email) in d.invitations && d.invitations[(organization, email)] == role
         && Claimed(d, run, organization, user, email)
  }

  lemma ExplainedExtends(d: Directory, run: Run, organization: Id, user: Id, role: Role)
    requires run != [] && Explained(d, run[..|run| - 1], organization, user, role)
    ensures Explained(d, run, organization, user, role)
  {
    if !((organization, user) in d.members && d.members[(organization, user)] == role) {
      var email :| (organization, email) in d.invitations && d.invitations[(organization, email)] == role
        && Claimed(d, run[..|run| - 1], organization, user, email);
      ClaimedExtends(d, run, organization, user, email);
    }
  }

  /** Where privileges come from: every owner and admin held the same role at the start or consumed an
      invitation to it that was pending at the start, every privileged invitation was pending at the
      start, and nobody but the member can take a privileged role away. */
  ghost predicate AllExplained(d: Directory, run: Run, organization: Id) {
    var d' := After(d, run);
    && (forall k :: k in PrivilegedInvitations(d', organization) ==>
          k in d.invitations && d.invitations[k] == d'.invitations[k])
    && (forall k :: k in PrivilegedMembers(d', organization) ==>
          Explained(d, run, organization, k.1, d'.members[k]))
    && (forall k :: k in PrivilegedMembers(d, organization) ==>
          (k in d'.members && d'.members[k] == d.members[k]) || exists e :: Claimed(d, run, organization, k.1, e))
  }

  lemma LastStatementExplained(d: Directory, run: Run, organization: Id)
    requires run != [] && NoOwnerActs(d, run, organization)
    requires HasMembers(After(d, run[..|run| - 1]), organization)
    requires AllExplained(d, run[..|run| - 1], organization)
    ensures AllExplained(d, run, organization)
  {
    var before := run[..|run| - 1];
    var (s, statement) := run[|run| - 1];
    var d1, d' := After(d, before), After(d, run);
    if key :| Consumes(d1, s, statement, organization, key) {
      ConsumingClaim(d1, s, statement, organization, key);
      ClaimedLast(d, run, organization, key);
      forall k | k in PrivilegedMembers(d', organization) ensures Explained(d, run, organization, k.1, d'.members[k]) {
        if k == (organization, statement.user) {
          assert key in PrivilegedInvitations(d1, organization);
          assert key == (organization, key.1);
        } else {
          assert k in PrivilegedMembers(d1, organization);
          ExplainedExtends(d, run, organization, k.1, d'.members[k]);
        }
      }
    } else {
      UnprivilegedStatement(d1, s, statement, organization);
      forall k | k in PrivilegedMembers(d', organization) ensures Explained(d, run, organization, k.1, d'.members[k]) {
        assert k in PrivilegedMembers(d1, organization);
        ExplainedExtends(d, run, organization, k.1, d'.members[k]);
      }
    }
    forall k | k in PrivilegedMembers(d, organization)
      ensures (k in d'.members && d'.members[k] == d.members[k]) || exists e :: Claimed(d, run, organization, k.1, e)
    {
      if e :| Claimed(d, before, organization, k.1, e) {
        ClaimedExtends(d, run, organization, k.1, e);
      } else {
        assert k in PrivilegedMembers(d1, organization);
      }
    }
  }

  /** Privileges keep an explanation along any run in which no owner of the organization acts. */
  lemma {:induction false} PrivilegesAreExplained(d: Directory, run: Run, organization: Id)
    requires HasMembers(d, organization) && NoOwnerActs(d, run, organization)
    ensures AllExplained(d, run, organization)
  {
    if run != [] {
      var before := run[..|run| - 1];
      OwnerlessPrefix(d, run, organization);
      PrivilegesNeverGrow(d, before, organization);
      PrivilegesAreExplained(d, before, organization);
      LastStatementExplained(d, run, organization);
    }
  }
}
