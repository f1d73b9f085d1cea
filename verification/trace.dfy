/** Sequences of messages sent to one contract instance. The contract handles
    one message at a time, so a run is the left-to-right composition of the
    single-message transitions of `Waitlist`. */
module Trace {
  import opened Waitlist

  /** The four messages. `SetDetails` carries the setter's eleven arguments,
      bundled as a storage value. */
  datatype Message =
    | SetDetails(args: CadavericKidneyWaitlist)
    | GetAlertStatus
    | SetAlertStatus
    | ResetAlertStatus

  /** The storage after handling one message. */
  function Step(s: CadavericKidneyWaitlist, m: Message): (r: CadavericKidneyWaitlist)
    ensures !m.SetDetails? ==> ProfileOf(r) == ProfileOf(s)
    ensures m.GetAlertStatus? ==> r == s
  {
    match m
    case SetDetails(t) => SetAllFrom(s, t)
    case GetAlertStatus => s
    case SetAlertStatus => SetPatientAlertStatus(s)
    case ResetAlertStatus => ResetPatientAlertStatus(s)
  }

  /** The storage after handling every message of `ms`, first to last. */
  function Run(s: CadavericKidneyWaitlist, ms: seq<Message>): CadavericKidneyWaitlist
    decreases |ms|
  {
    if |ms| == 0 then s else Run(Step(s, ms[0]), ms[1..])
  }

  /** The alert flag written by the last message of `ms` that writes one
      (the setter, set or reset), or `initial` when none does. */
  function LastAlertWrite(ms: seq<Message>, initial: bool): bool
    decreases |ms|
  {
    if |ms| == 0 then initial
    else match ms[|ms| - 1]
      case SetDetails(t) => t.patientAlertStatus
      case SetAlertStatus => true
      case ResetAlertStatus => false
      case GetAlertStatus => LastAlertWrite(ms[..|ms| - 1], initial)
  }

  /** The profile written by the last setter call in `ms`, or `initial` when
      there is none. */
  function LastProfileWrite(ms: seq<Message>, initial: Profile): Profile
    decreases |ms|
  {
    if |ms| == 0 then initial
    else match ms[|ms| - 1]
      case SetDetails(t) => ProfileOf(t)
      case _ => LastProfileWrite(ms[..|ms| - 1], initial)
  }

  predicate NoSetter(ms: seq<Message>) {
    forall i :: 0 <= i < |ms| ==> !ms[i].SetDetails?
  }

  /** The storage holding profile `p` and alert flag `b`. */
  function WithProfile(p: Profile, b: bool): (r: CadavericKidneyWaitlist)
    ensures ProfileOf(r) == p && r.patientAlertStatus == b
  {
    CadavericKidneyWaitlist(p.idType, p.id, p.name, p.gender, p.age, p.bloodGroup,
                            p.phoneNumber, p.emailAddress, p.address, b, p.waitlistRank)
  }

  /** Handling one more message extends a run by one step. */
  lemma {:induction false} RunAppend(s: CadavericKidneyWaitlist, ms: seq<Message>, m: Message)
    ensures Run(s, ms + [m]) == Step(Run(s, ms), m)
    decreases |ms|
  {
    if |ms| == 0 {
      assert ms + [m] == [m];
    } else {
      assert (ms + [m])[1..] == ms[1..] + [m];
      RunAppend(Step(s, ms[0]), ms[1..], m);
    }
  }

  /** In any trace the final alert flag is the value written by the last
      flag-writing message; reads never change it. */
  lemma {:induction false} RunAlertIsLastWrite(s: CadavericKidneyWaitlist, ms: seq<Message>)
    ensures Run(s, ms).patientAlertStatus == LastAlertWrite(ms, s.patientAlertStatus)
    decreases |ms|
  {
    if |ms| > 0 {
      var init, last := ms[..|ms| - 1], ms[|ms| - 1];
      assert ms == init + [last];
      RunAppend(s, init, last);
      RunAlertIsLastWrite(s, init);
    }
  }

  /** In any trace the final profile (details and rank) is the one written by
      the last setter call; set, reset and get never change it. */
  lemma {:induction false} RunProfileIsLastWrite(s: CadavericKidneyWaitlist, ms: seq<Message>)
    ensures ProfileOf(Run(s, ms)) == LastProfileWrite(ms, ProfileOf(s))
    decreases |ms|
  {
    if |ms| > 0 {
      var init, last := ms[..|ms| - 1], ms[|ms| - 1];
      assert ms == init + [last];
      RunAppend(s, init, last);
      RunProfileIsLastWrite(s, init);
    }
  }

  /** The final storage of any trace is fully determined by the last writes:
      the last setter's profile and the last flag write. */
  lemma RunIsDeterminedByLastWrites(s: CadavericKidneyWaitlist, ms: seq<Message>)
    ensures Run(s, ms) == WithProfile(LastProfileWrite(ms, ProfileOf(s)),
                                      LastAlertWrite(ms, s.patientAlertStatus))
  {
    RunAlertIsLastWrite(s, ms);
    RunProfileIsLastWrite(s, ms);
    ProfileAndFlagDetermineStorage(Run(s, ms), WithProfile(LastProfileWrite(ms, ProfileOf(s)),
                                                           LastAlertWrite(ms, s.patientAlertStatus)));
  }

  /** Only the setter can change the waitlist rank or any detail field: a trace
      without a setter call keeps the whole profile. */
  lemma {:induction false} OnlySetterChangesProfile(s: CadavericKidneyWaitlist, ms: seq<Message>)
    requires NoSetter(ms)
    ensures ProfileOf(Run(s, ms)) == ProfileOf(s)
    ensures Run(s, ms).patientWaitlistRank == s.patientWaitlistRank
    decreases |ms|
  {
    if |ms| > 0 {
      assert !ms[0].SetDetails?;
      assert NoSetter(ms[1..]) by {
        forall i | 0 <= i < |ms[1..]|
          ensures !ms[1..][i].SetDetails?
        {
          assert ms[1..][i] == ms[i + 1];
        }
      }
      OnlySetterChangesProfile(Step(s, ms[0]), ms[1..]);
    }
  }

  /** A trace that ends in a setter call forgets everything before it: its
      final storage is the setter's arguments, whatever the start and history. */
  lemma SetterForgetsHistory(s: CadavericKidneyWaitlist, ms: seq<Message>,
                             s': CadavericKidneyWaitlist, ms': seq<Message>,
                             t: CadavericKidneyWaitlist)
    ensures Run(s, ms + [SetDetails(t)]) == t
    ensures Run(s, ms + [SetDetails(t)]) == Run(s', ms' + [SetDetails(t)])
  {
    RunAppend(s, ms, SetDetails(t));
    RunAppend(s', ms', SetDetails(t));
  }

  /** The unit test as a trace: constructing the contract and asking for the
      flag, with no message in between, answers false. */
  lemma {:induction false} FreshContractReportsNoAlert(ms: seq<Message>)
    requires forall i :: 0 <= i < |ms| ==> ms[i].GetAlertStatus?
    ensures GetPatientAlertStatus(Run(Default(), ms)) == false
    decreases |ms|
  {
    if |ms| > 0 {
      assert Step(Default(), ms[0]) == Default();
      assert forall i :: 0 <= i < |ms[1..]| ==> ms[1..][i] == ms[i + 1];
      FreshContractReportsNoAlert(ms[1..]);
    }
  }
}
