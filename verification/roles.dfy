/** The five user roles (`models/User.js`) and the capability table of `config/roles.js`. */
module Roles {
  import opened Wrappers

  datatype Role = Patient | Provider | Employee | Manager | Admin

  /** The role's name, as stored on the user and carried in the token's `role` claim. */
  function Name(r: Role): string {
    match r
    case Patient => "Patient"
    case Provider => "Provider"
    case Employee => "Employee"
    case Manager => "Manager"
    case Admin => "Admin"
  }

  /** The role a claim names, if any. */
  function ParseRole(s: string): (r: Option<Role>)
    ensures r.Some? ==> Name(r.value) == s
    ensures r.None? ==> forall x: Role :: Name(x) != s
  {
    if s == "Patient" then Some(Patient)
    else if s == "Provider" then Some(Provider)
    else if s == "Employee" then Some(Employee)
    else if s == "Manager" then Some(Manager)
    else if s == "Admin" then Some(Admin)
    else None
  }

  lemma ParseName(r: Role)
    ensures ParseRole(Name(r)) == Some(r)
  {
  }

  /** `roles`: each role name to its `can` list. */
  const Table: map<string, seq<string>> := map[
    "Patient" := ["read_own_profile"],
    "Provider" := ["read_own_profile", "update_patient_notes"],
    "Employee" := ["read_any_profile", "update_any_profile"],
    "Manager" := ["read_any_profile", "update_any_profile", "manage_employees"],
    "Admin" := ["read_any_profile", "update_any_profile", "manage_users", "manage_system"]]

  /** What a role may do. */
  function Can(r: Role): seq<string> {
    Table[Name(r)]
  }

  /** The table has an entry for exactly the five roles. */
  lemma TableCoversRoles(s: string)
    ensures s in Table <==> ParseRole(s).Some?
  {
  }

  /** A patient may only read their own profile. */
  lemma PatientOnlyReadsOwnProfile(p: string)
    ensures p in Can(Patient) <==> p == "read_own_profile"
  {
  }

  /** Only providers update patient notes. */
  lemma UpdateNotesOnlyProvider(r: Role)
    ensures "update_patient_notes" in Can(r) <==> r == Provider
  {
  }

  /** Only managers manage employees; capabilities are not inherited, so Admin lacks it. */
  lemma ManageEmployeesOnlyManager(r: Role)
    ensures "manage_employees" in Can(r) <==> r == Manager
  {
  }

  /** Only Admin manages users and the system. */
  lemma ManageUsersAndSystemOnlyAdmin(r: Role)
    ensures "manage_users" in Can(r) <==> r == Admin
    ensures "manage_system" in Can(r) <==> r == Admin
  {
  }

  /** Whoever reads any profile may also update any profile. */
  lemma ReadAnyImpliesUpdateAny(r: Role)
    ensures "read_any_profile" in Can(r) ==> "update_any_profile" in Can(r)
    ensures "read_any_profile" in Can(r) <==> r in {Employee, Manager, Admin}
  {
  }
}
