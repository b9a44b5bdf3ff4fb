/** `utils/recordAccessRoles.js`: who may create and read patient records. Roles arrive as the
    strings of the token's `role` claim, so the predicates take strings. */
module RecordAccess {
  import opened Wrappers
  import opened Roles

  /** `canCreateRecord(role)`. */
  function CanCreateRecord(role: string): (b: bool)
    ensures b <==> ParseRole(role) == Some(Provider) || ParseRole(role) == Some(Manager)
  {
    role in ["Provider", "Manager"]
  }

  /** `canViewAllRecord(role)`: the same two roles. */
  function CanViewAllRecord(role: string): (b: bool)
    ensures b <==> ParseRole(role) == Some(Provider) || ParseRole(role) == Some(Manager)
  {
    role in ["Provider", "Manager"]
  }

  /** Line 7 ends in `||` followed by `;`, which does not parse: `require` of the file throws a
      SyntaxError, so none of the four predicates can be called by anything that loads it. */
  const SyntaxErrorMessage := "SyntaxError: Unexpected token ';'"
  const Exports: set<string> := {"canCreateRecord", "canViewAllRecord", "canViewOwnRecord", "canViewRecordById"}

  /** A call through the module as written: every name fails when the module is loaded. */
  function CallAsWritten(name: string, role: string, requesterId: string, recordPatientId: string): Result<Option<bool>, string>
  {
    Failure(SyntaxErrorMessage)
  }

  /** A call through the corrected module, where line 7 keeps its left operand alone: each
      export answers as its predicate does, and a name the module does not export is
      `undefined`, whose call throws. */
  function CallFixed(name: string, role: string, requesterId: string, recordPatientId: string): (r: Result<Option<bool>, string>)
    ensures r.Success? <==> name in Exports
    ensures r.Success? && name != "canViewRecordById" ==> r.value.Some?
    ensures r == Success(Some(true)) <==>
              || (name in {"canCreateRecord", "canViewAllRecord", "canViewRecordById"}
                  && (ParseRole(role) == Some(Provider) || ParseRole(role) == Some(Manager)))
              || (name in {"canViewOwnRecord", "canViewRecordById"}
                  && ParseRole(role) == Some(Patient) && requesterId == recordPatientId)
  {
    if name == "canCreateRecord" then Success(Some(CanCreateRecord(role)))
    else if name == "canViewAllRecord" then Success(Some(CanViewAllRecord(role)))
    else if name == "canViewOwnRecord" then Success(Some(CanViewOwnRecord(role, requesterId, recordPatientId)))
    else if name == "canViewRecordById" then Success(CanViewRecordById(role, requesterId, recordPatientId))
    else Failure(name + " is not a function")
  }

  /** The defect at line 7 costs every export, not only the one it is in: for every exported name
      and every argument, the corrected module answers and the module as written fails. */
  lemma AsWrittenNothingCallable(name: string, role: string, requesterId: string, recordPatientId: string)
    requires name in Exports
    ensures CallFixed(name, role, requesterId, recordPatientId).Success?
    ensures CallAsWritten(name, role, requesterId, recordPatientId).Failure?
    ensures CallAsWritten(name, role, requesterId, recordPatientId) != CallFixed(name, role, requesterId, recordPatientId)
  {
  }

  /** `canViewOwnRecord` as its left operand reads: a patient looking at their own record. */
  function CanViewOwnRecord(role: string, requesterId: string, recordPatientId: string): (b: bool)
    ensures b <==> ParseRole(role) == Some(Patient) && requesterId == recordPatientId
  {
    role == "Patient" && requesterId == recordPatientId
  }

  /** `canViewRecordById(role, requesterId, record)`: `true` or `undefined`, never `false`. */
  function CanViewRecordById(role: string, requesterId: string, recordPatient: string): (r: Option<bool>)
    ensures r != Some(false)
    ensures r == Some(true) <==>
              || (ParseRole(role) == Some(Patient) && requesterId == recordPatient)
              || ParseRole(role) == Some(Provider) || ParseRole(role) == Some(Manager)
  {
    if role == "Patient" && requesterId == recordPatient then Some(true)
    else if role in ["Provider", "Manager"] then Some(true)
    else None
  }

  /** `undefined` denies, as the callers test the result for truth. */
  predicate Allows(r: Option<bool>) {
    r == Some(true)
  }

  /** Reading one's own record is a special case of reading a record by id. */
  lemma ViewOwnImpliesViewById(role: string, requesterId: string, recordPatient: string)
    ensures CanViewOwnRecord(role, requesterId, recordPatient) ==> Allows(CanViewRecordById(role, requesterId, recordPatient))
  {
  }

  /** Providers and managers see every record: there is no check of an assigned provider. */
  lemma StaffViewEveryRecord(r: Role, requesterId: string, recordPatient: string)
    requires r == Provider || r == Manager
    ensures Allows(CanViewRecordById(Name(r), requesterId, recordPatient))
    ensures CanViewAllRecord(Name(r)) && CanCreateRecord(Name(r))
  {
  }

  /** Employees and administrators are denied, whatever the record; so is a role the table does
      not know. */
  lemma OthersDenied(role: string, requesterId: string, recordPatient: string)
    requires ParseRole(role) in {Some(Employee), Some(Admin), None}
    ensures !Allows(CanViewRecordById(role, requesterId, recordPatient))
    ensures !CanCreateRecord(role) && !CanViewAllRecord(role)
  {
  }

  /** A patient is allowed exactly on their own record. */
  lemma PatientOnlyOwn(requesterId: string, recordPatient: string)
    ensures Allows(CanViewRecordById("Patient", requesterId, recordPatient)) <==> requesterId == recordPatient
  {
  }
}
