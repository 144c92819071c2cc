/** The closed enumerations of the system (account statuses, roles, the deleted-records
    mode) and the small input predicates the helpers apply to request values. */
module Types {
  import opened Base

  /** IAccountStatus */
  datatype AccountStatus = Active | Inactive | Pending | Accepted | Rejected | Blocked

  function AccountStatusName(s: AccountStatus): string
  {
    match s
    case Active => "Active"
    case Inactive => "Inactive"
    case Pending => "Pending"
    case Accepted => "Accepted"
    case Rejected => "Rejected"
    case Blocked => "Blocked"
  }

  /** All six statuses, in the order the privileged list filters name them. */
  const AllAccountStatuses: seq<AccountStatus> := [Pending, Active, Inactive, Blocked, Accepted, Rejected]

  lemma AllAccountStatusesComplete(s: AccountStatus)
    ensures s in AllAccountStatuses
  {
  }

  /** A status written in a request body, read back as the enumeration value it names. */
  function ParseAccountStatus(text: string): (r: Option<AccountStatus>)
    ensures forall s :: AccountStatusName(s) == text ==> r == Some(s)
    ensures r.Some? ==> AccountStatusName(r.value) == text
  {
    if text == "Active" then Some(Active)
    else if text == "Inactive" then Some(Inactive)
    else if text == "Pending" then Some(Pending)
    else if text == "Accepted" then Some(Accepted)
    else if text == "Rejected" then Some(Rejected)
    else if text == "Blocked" then Some(Blocked)
    else None
  }

  /** IRoles: the guest role, the admin roles and the user role. */
  datatype Role = Guest | User | Admin | SuperAdmin | DeveloperAdmin

  function RoleName(r: Role): string
  {
    match r
    case Guest => "Guest"
    case User => "User"
    case Admin => "Admin"
    case SuperAdmin => "SuperAdmin"
    case DeveloperAdmin => "DeveloperAdmin"
  }

  /** A role name is exactly one of the five role spellings. */
  predicate IsRoleName(text: string)
  {
    text in ["Guest", "User", "Admin", "SuperAdmin", "DeveloperAdmin"]
  }

  lemma RoleNamesAreRoleNames(r: Role)
    ensures IsRoleName(RoleName(r))
  {
  }

  /** IDeleted: which records a list query covers. */
  datatype Deleted = YES | NO | BOTH

  predicate IsHexDigit(c: char)
  {
    '0' <= c <= '9' || 'a' <= c <= 'f' || 'A' <= c <= 'F'
  }

  /** `isValidObjectId`, for string ids: a 24-character hexadecimal string or any
      12-character string, the two shapes an ObjectId accepts. */
  predicate ValidObjectId(id: string)
  {
    |id| == 12 || (|id| == 24 && forall i :: 0 <= i < |id| ==> IsHexDigit(id[i]))
  }

  predicate IsDigit(c: char)
  {
    '0' <= c <= '9'
  }

  predicate AllDigits(s: string)
  {
    forall i :: 0 <= i < |s| ==> IsDigit(s[i])
  }
}
