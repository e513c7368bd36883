/**
 * Organization sign-up (`POST /api/organizations/register`): body validation,
 * then the duplicate-email check, then the duplicate-name check, then one
 * transaction that creates the organization, its ADMIN user and the OWNER
 * membership linking them.
 *
 * The email and URL format checks and the password hash are not part of this
 * model; they are parameters `isEmail`, `isUrl` and `hash`.
 */
module RegisterRoute {
  import opened Store
  import opened Validation

  datatype OrganizationFields = OrganizationFields(name: Field<string>, description: Field<string>, website: Field<string>)
  datatype AdminFields = AdminFields(name: Field<string>, email: Field<string>, password: Field<string>)

  /** The JSON body as `organizationSchema` sees it. */
  datatype RegistrationBody = RegistrationBody(organization: Section<OrganizationFields>, admin: Section<AdminFields>)

  /** The fields of a body that passed `organizationSchema`. */
  datatype Registration = Registration(
    organizationName: string,
    organizationDescription: Option<string>,
    organizationWebsite: Option<string>,
    adminName: string,
    adminEmail: string,
    adminPassword: string)

  const OrganizationNameRequired: string := "Organization name is required"
  const InvalidUrl: string := "Invalid url"
  const AdminNameRequired: string := "Admin name is required"
  const InvalidEmail: string := "Invalid email"
  const PasswordTooShort: string := "Password must be at least 6 characters"

  function OrganizationIssues(o: OrganizationFields, isUrl: string -> bool): seq<string> {
    CheckedIssues(o.name, MinLength(1), OrganizationNameRequired)
    + OptionalIssues(o.description, _ => true, "")
    + OptionalIssues(o.website, isUrl, InvalidUrl)
  }

  function AdminIssues(a: AdminFields, isEmail: string -> bool): seq<string> {
    CheckedIssues(a.name, MinLength(1), AdminNameRequired)
    + CheckedIssues(a.email, isEmail, InvalidEmail)
    + CheckedIssues(a.password, MinLength(6), PasswordTooShort)
  }

  /** Every issue `organizationSchema` raises for `body`, key by key in declaration order. */
  function RegistrationIssues(body: RegistrationBody, isEmail: string -> bool, isUrl: string -> bool): seq<string> {
    SectionIssues(body.organization, o => OrganizationIssues(o, isUrl))
    + SectionIssues(body.admin, a => AdminIssues(a, isEmail))
  }

  /** The organization part is acceptable. */
  predicate ValidOrganization(o: OrganizationFields, isUrl: string -> bool) {
    && o.name.Given? && o.name.value != ""
    && (o.description.Missing? || o.description.Given?)
    && (o.website.Missing? || (o.website.Given? && isUrl(o.website.value)))
  }

  /** The admin part is acceptable. */
  predicate ValidAdmin(a: AdminFields, isEmail: string -> bool) {
    && a.name.Given? && a.name.value != ""
    && a.email.Given? && isEmail(a.email.value)
    && a.password.Given? && |a.password.value| >= 6
  }

  /** `organizationSchema.parse`, stopping at the first failing key. */
  function ParseRegistration(body: RegistrationBody, isEmail: string -> bool, isUrl: string -> bool)
    : (r: Result<Registration>)
    ensures r.Ok? <==>
              && body.organization.Present? && ValidOrganization(body.organization.fields, isUrl)
              && body.admin.Present? && ValidAdmin(body.admin.fields, isEmail)
    ensures r.Ok? ==>
              var o, a := body.organization.fields, body.admin.fields;
              r.value == Registration(o.name.value, OptionalValue(o.description), OptionalValue(o.website),
                                      a.name.value, a.email.value, a.password.value)
    // the reported message is the first of all the issues the schema collects
    ensures r.Ok? <==> RegistrationIssues(body, isEmail, isUrl) == []
    ensures r.Err? ==> r.message == RegistrationIssues(body, isEmail, isUrl)[0]
  {
    match body.organization
    case Absent => Err(Required)
    case NotObject(received) => Err(ExpectedObject(received))
    case Present(o) =>
      var name := CheckedIssues(o.name, MinLength(1), OrganizationNameRequired);
      if name != [] then Err(name[0]) else
      var description := OptionalIssues(o.description, _ => true, "");
      if description != [] then Err(description[0]) else
      var website := OptionalIssues(o.website, isUrl, InvalidUrl);
      if website != [] then Err(website[0]) else
      match body.admin
      case Absent => Err(Required)
      case NotObject(received) => Err(ExpectedObject(received))
      case Present(a) =>
        var adminName := CheckedIssues(a.name, MinLength(1), AdminNameRequired);
        if adminName != [] then Err(adminName[0]) else
        var email := CheckedIssues(a.email, isEmail, InvalidEmail);
        if email != [] then Err(email[0]) else
        var password := CheckedIssues(a.password, MinLength(6), PasswordTooShort);
        if password != [] then Err(password[0]) else
        Ok(Registration(o.name.value, OptionalValue(o.description), OptionalValue(o.website),
                        a.name.value, a.email.value, a.password.value))
  }

  /** The three rows the sign-up transaction inserts together. */
  datatype NewTenant = NewTenant(organization: Organization, user: User, membership: OrganizationMember)

  datatype RegisterOutcome = RegisterOutcome(response: Response, created: Option<NewTenant>)

  const EmailConflict: Response := MessageResponse(409, "User with this email already exists")
  const NameConflict: Response := MessageResponse(409, "Organization with this name already exists")

  /**
   * What one sign-up request answers and which rows, if any, it inserts; the
   * new organization and user get the unused ids `orgId` and `userId`.
   */
  function Register(
    users: map<Id, User>, organizations: map<Id, Organization>, body: RegistrationBody,
    isEmail: string -> bool, isUrl: string -> bool, hash: string -> string, orgId: Id, userId: Id)
    : (r: RegisterOutcome)
    ensures ParseRegistration(body, isEmail, isUrl).Err? ==>
              r == RegisterOutcome(MessageResponse(400, ParseRegistration(body, isEmail, isUrl).message), None)
    // the email check comes before the name check
    ensures ParseRegistration(body, isEmail, isUrl).Ok?
            && EmailTaken(users, ParseRegistration(body, isEmail, isUrl).value.adminEmail) ==>
              r == RegisterOutcome(EmailConflict, None)
    ensures ParseRegistration(body, isEmail, isUrl).Ok?
            && !EmailTaken(users, ParseRegistration(body, isEmail, isUrl).value.adminEmail)
            && NameTaken(organizations, ParseRegistration(body, isEmail, isUrl).value.organizationName) ==>
              r == RegisterOutcome(NameConflict, None)
    // all three rows are created exactly when every check passes, and then the answer is 201
    ensures r.created.Some? <==>
              && ParseRegistration(body, isEmail, isUrl).Ok?
              && !EmailTaken(users, ParseRegistration(body, isEmail, isUrl).value.adminEmail)
              && !NameTaken(organizations, ParseRegistration(body, isEmail, isUrl).value.organizationName)
    ensures r.created.Some? <==> r.response.status == 201
    ensures r.created.Some? ==>
              var p, t := ParseRegistration(body, isEmail, isUrl).value, r.created.value;
              && t.organization == Organization(orgId, p.organizationName, p.organizationDescription, p.organizationWebsite)
              // only the hash of the password is stored
              && t.user == User(userId, p.adminName, p.adminEmail, hash(p.adminPassword), UserRole.ADMIN)
              && t.membership == OrganizationMember(orgId, userId, OWNER)
              // the answer names the organization and the user, and carries no password
              && r.response == Response(201, Registered(p.organizationName, p.adminName, p.adminEmail), None)
  {
    match ParseRegistration(body, isEmail, isUrl)
    case Err(message) => RegisterOutcome(MessageResponse(400, message), None)
    case Ok(p) =>
      if EmailTaken(users, p.adminEmail) then RegisterOutcome(EmailConflict, None)
      else if NameTaken(organizations, p.organizationName) then RegisterOutcome(NameConflict, None)
      else
        var org := Organization(orgId, p.organizationName, p.organizationDescription, p.organizationWebsite);
        var user := User(userId, p.adminName, p.adminEmail, hash(p.adminPassword), UserRole.ADMIN);
        RegisterOutcome(Response(201, Registered(org.name, user.name, user.email), None),
                        Some(NewTenant(org, user, OrganizationMember(orgId, userId, OWNER))))
  }

  /** The user row holding `email`, if any: the lookup on the unique email column. */
  method FindUserByEmail(users: map<Id, User>, email: string) returns (found: Option<Id>)
    ensures found.Some? <==> EmailTaken(users, email)
    ensures found.Some? ==> found.value in users && users[found.value].email == email
  {
    if EmailTaken(users, email) {
      var id :| id in users && users[id].email == email;
      found := Some(id);
    } else {
      found := None;
    }
  }

  /** An organization carrying `name`, if any: the lookup on the name column. */
  method FindOrganizationByName(organizations: map<Id, Organization>, name: string) returns (found: Option<Id>)
    ensures found.Some? <==> NameTaken(organizations, name)
    ensures found.Some? ==> found.value in organizations && organizations[found.value].name == name
  {
    if NameTaken(organizations, name) {
      var id :| id in organizations && organizations[id].name == name;
      found := Some(id);
    } else {
      found := None;
    }
  }

  /**
   * The handler: validation and the two lookups with early returns, then the
   * organization, user and membership inserts of the transaction.
   */
  method Post(
    db: Database, body: RegistrationBody,
    isEmail: string -> bool, isUrl: string -> bool, hash: string -> string, orgId: Id, userId: Id)
    returns (response: Response)
    requires db.Valid()
    requires orgId !in db.organizations && userId !in db.users
    modifies db
    ensures db.Valid()
    ensures response == Register(old(db.users), old(db.organizations), body, isEmail, isUrl, hash, orgId, userId).response
    ensures match Register(old(db.users), old(db.organizations), body, isEmail, isUrl, hash, orgId, userId).created
            case None =>
              db.organizations == old(db.organizations) && db.users == old(db.users) && db.members == old(db.members)
            case Some(t) =>
              && db.organizations == old(db.organizations)[orgId := t.organization]
              && db.users == old(db.users)[userId := t.user]
              && db.members == old(db.members) + [t.membership]
    ensures db.tickets == old(db.tickets) && db.mainEvents == old(db.mainEvents)
  {
    var parsed := ParseRegistration(body, isEmail, isUrl);
    if parsed.Err? {
      return MessageResponse(400, parsed.message);
    }
    var p := parsed.value;
    var existingUser := FindUserByEmail(db.users, p.adminEmail);
    if existingUser.Some? {
      return EmailConflict;
    }
    var existingOrganization := FindOrganizationByName(db.organizations, p.organizationName);
    if existingOrganization.Some? {
      return NameConflict;
    }
    var hashedPassword := hash(p.adminPassword);
    var org := Organization(orgId, p.organizationName, p.organizationDescription, p.organizationWebsite);
    db.organizations := db.organizations[orgId := org];
    var user := User(userId, p.adminName, p.adminEmail, hashedPassword, UserRole.ADMIN);
    db.users := db.users[userId := user];
    db.members := db.members + [OrganizationMember(org.id, user.id, OWNER)];
    response := Response(201, Registered(org.name, user.name, user.email), None);
  }

  /** Signing up twice with the same body: the second attempt meets the first one's user. */
  lemma RegisterTwice(
    users: map<Id, User>, organizations: map<Id, Organization>, body: RegistrationBody,
    isEmail: string -> bool, isUrl: string -> bool, hash: string -> string,
    orgId: Id, userId: Id, orgId': Id, userId': Id)
    requires Register(users, organizations, body, isEmail, isUrl, hash, orgId, userId).created.Some?
    ensures
      var t := Register(users, organizations, body, isEmail, isUrl, hash, orgId, userId).created.value;
      Register(users[userId := t.user], organizations[orgId := t.organization], body, isEmail, isUrl, hash, orgId', userId')
      == RegisterOutcome(EmailConflict, None)
  {
    var t := Register(users, organizations, body, isEmail, isUrl, hash, orgId, userId).created.value;
    assert users[userId := t.user][userId].email == ParseRegistration(body, isEmail, isUrl).value.adminEmail;
  }
}
