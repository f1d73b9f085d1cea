/** The storage record of the `CadavericKidneyWaitlist` contract and its four
    operations: the zeroing constructor, the all-fields setter, the alert-flag
    getter, and the pair of messages that set and reset the alert flag.

    The contract holds ONE patient record. Every operation is a pure function
    from the old storage to the new one; a read-only message returns its value
    and leaves the storage as it was. */
module Waitlist {
  import opened Int32

  /** The contract's storage. The nine `i32` details stand in for text
      (identifier, name, contact data, ...) and are opaque here. */
  datatype CadavericKidneyWaitlist = CadavericKidneyWaitlist(
    patientIdType: i32,
    patientId: i32,
    patientName: i32,
    patientGender: i32,
    patientAge: i32,
    patientBloodGroup: i32,
    patientPhoneNumber: i32,
    patientEmailAddress: i32,
    patientAddress: i32,
    patientAlertStatus: bool,
    patientWaitlistRank: i32
  )

  /** Everything in the storage except the alert flag: the ten fields that only
      the setter may change. */
  datatype Profile = Profile(
    idType: i32,
    id: i32,
    name: i32,
    gender: i32,
    age: i32,
    bloodGroup: i32,
    phoneNumber: i32,
    emailAddress: i32,
    address: i32,
    waitlistRank: i32
  )

  function ProfileOf(s: CadavericKidneyWaitlist): Profile {
    Profile(s.patientIdType, s.patientId, s.patientName, s.patientGender, s.patientAge,
            s.patientBloodGroup, s.patientPhoneNumber, s.patientEmailAddress,
            s.patientAddress, s.patientWaitlistRank)
  }

  /** A storage is determined by its profile together with its alert flag. */
  lemma ProfileAndFlagDetermineStorage(s: CadavericKidneyWaitlist, t: CadavericKidneyWaitlist)
    requires ProfileOf(s) == ProfileOf(t)
    requires s.patientAlertStatus == t.patientAlertStatus
    ensures s == t
  {
  }

  /** The all-zero profile a fresh contract starts with. */
  const ZeroProfile: Profile := Profile(0, 0, 0, 0, 0, 0, 0, 0, 0, 0)

  /** The constructor: every detail, the age and the rank are zero, and no
      alert has been raised. */
  function Default(): (s: CadavericKidneyWaitlist)
    ensures ProfileOf(s) == ZeroProfile
    ensures !s.patientAlertStatus
  {
    CadavericKidneyWaitlist(0, 0, 0, 0, 0, 0, 0, 0, 0, false, 0)
  }

  /** Overwrites all eleven fields with the arguments. Any `i32` is accepted
      (a negative age or rank included): there is no validation and no
      failure path, and the previous storage is not consulted. */
  function PatientDetailsSetter(
    s: CadavericKidneyWaitlist,
    newPatientIdType: i32, newPatientId: i32,
    newPatientName: i32, newPatientGender: i32,
    newPatientAge: i32, newPatientBloodGroup: i32,
    newPatientPhoneNumber: i32, newPatientEmailAddress: i32,
    newPatientAddress: i32, newPatientAlertStatus: bool,
    newPatientWaitlistRank: i32
  ): (r: CadavericKidneyWaitlist)
    ensures ProfileOf(r) == Profile(newPatientIdType, newPatientId, newPatientName,
                                    newPatientGender, newPatientAge, newPatientBloodGroup,
                                    newPatientPhoneNumber, newPatientEmailAddress,
                                    newPatientAddress, newPatientWaitlistRank)
    ensures r.patientAlertStatus == newPatientAlertStatus
  {
    CadavericKidneyWaitlist(newPatientIdType, newPatientId, newPatientName, newPatientGender,
                            newPatientAge, newPatientBloodGroup, newPatientPhoneNumber,
                            newPatientEmailAddress, newPatientAddress, newPatientAlertStatus,
                            newPatientWaitlistRank)
  }

  /** Calls the setter with the field values of `t`, so that the setter's
      eleven arguments can be talked about as one value. */
  function SetAllFrom(s: CadavericKidneyWaitlist, t: CadavericKidneyWaitlist): CadavericKidneyWaitlist {
    PatientDetailsSetter(s, t.patientIdType, t.patientId, t.patientName, t.patientGender,
                         t.patientAge, t.patientBloodGroup, t.patientPhoneNumber,
                         t.patientEmailAddress, t.patientAddress, t.patientAlertStatus,
                         t.patientWaitlistRank)
  }

  /** Read-only: the stored alert flag. */
  function GetPatientAlertStatus(s: CadavericKidneyWaitlist): (b: bool)
    ensures b <==> s.patientAlertStatus
  {
    s.patientAlertStatus
  }

  /** Raises the alert flag; the profile is untouched. */
  function SetPatientAlertStatus(s: CadavericKidneyWaitlist): (r: CadavericKidneyWaitlist)
    ensures r.patientAlertStatus
    ensures ProfileOf(r) == ProfileOf(s)
  {
    s.(patientAlertStatus := true)
  }

  /** Clears the alert flag; the profile is untouched. */
  function ResetPatientAlertStatus(s: CadavericKidneyWaitlist): (r: CadavericKidneyWaitlist)
    ensures !r.patientAlertStatus
    ensures ProfileOf(r) == ProfileOf(s)
  {
    s.(patientAlertStatus := false)
  }

  // ---------------------------------------------------------------------------
  // Properties of single calls and of pairs of calls

  /** The unit test: a freshly constructed contract reports no alert. */
  lemma DefaultWorks()
    ensures GetPatientAlertStatus(Default()) == false
  {
  }

  /** Last write wins: the setter's result is the same whatever the storage
      held before, and it reproduces exactly the argument values. */
  lemma SetterForgetsPriorState(s: CadavericKidneyWaitlist, s': CadavericKidneyWaitlist, t: CadavericKidneyWaitlist)
    ensures SetAllFrom(s, t) == SetAllFrom(s', t)
    ensures SetAllFrom(s, t) == t
  {
  }

  /** Calling the setter twice with the same arguments equals calling it once. */
  lemma SetterIdempotent(s: CadavericKidneyWaitlist, t: CadavericKidneyWaitlist)
    ensures SetAllFrom(SetAllFrom(s, t), t) == SetAllFrom(s, t)
  {
  }

  /** No validation: every storage value, whatever its age or rank, is
      reachable from a fresh contract by one setter call. */
  lemma EveryStorageReachable(t: CadavericKidneyWaitlist)
    ensures SetAllFrom(Default(), t) == t
  {
  }

  /** The getter reads back what the setter wrote, and what set/reset wrote. */
  lemma GetterObservesWrites(s: CadavericKidneyWaitlist, t: CadavericKidneyWaitlist)
    ensures GetPatientAlertStatus(SetAllFrom(s, t)) == t.patientAlertStatus
    ensures GetPatientAlertStatus(SetPatientAlertStatus(s)) == true
    ensures GetPatientAlertStatus(ResetPatientAlertStatus(s)) == false
  {
  }

  /** Set and reset are each idempotent, and the later of the two wins. */
  lemma FlagMessagesIdempotent(s: CadavericKidneyWaitlist)
    ensures SetPatientAlertStatus(SetPatientAlertStatus(s)) == SetPatientAlertStatus(s)
    ensures ResetPatientAlertStatus(ResetPatientAlertStatus(s)) == ResetPatientAlertStatus(s)
    ensures ResetPatientAlertStatus(SetPatientAlertStatus(s)) == ResetPatientAlertStatus(s)
    ensures SetPatientAlertStatus(ResetPatientAlertStatus(s)) == SetPatientAlertStatus(s)
  {
  }

  /** Setting the flag on a storage where it is already raised changes
      nothing, and likewise for resetting a cleared flag. */
  lemma FlagMessagesNoOpWhenAlreadyThere(s: CadavericKidneyWaitlist)
    ensures s.patientAlertStatus ==> SetPatientAlertStatus(s) == s
    ensures !s.patientAlertStatus ==> ResetPatientAlertStatus(s) == s
  {
  }
}
