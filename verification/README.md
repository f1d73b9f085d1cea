# Cadaveric kidney waitlist contract — a Dafny model

This project models the ink! smart contract `CadavericKidneyWaitlist` (`lib.rs`).
The contract's storage is one patient record with eleven fields:

- nine `i32` placeholders for identity and contact details (id type, id, name, gender, age, blood group, phone number, e-mail address, postal address);
- a `bool` alert flag;
- an `i32` waitlist rank.

It has four operations:

- a constructor that zeroes everything;
- a setter that overwrites all eleven fields at once;
- a read-only getter for the alert flag;
- a pair of messages that raise and clear the flag.

The model files are:

- `int32.dfy` (module `Int32`): the `i32` range as a newtype over `int`.
- `waitlist.dfy` (module `Waitlist`): the storage as an immutable datatype, with each message as a pure function from the old storage to the new one. It also states properties of single calls and pairs of calls. `Profile` groups the ten fields other than the alert flag, so that frame conditions can be stated as "the profile is unchanged".
- `trace.dfy` (module `Trace`): a run of the contract over any sequence of messages. It proves "last write wins" for the flag and for the profile, and that only the setter can change the rank or any detail field.

The contract's doc comment (lib.rs:13-16) speaks of renumbering every patient's rank and flipping alerts when an organ is allocated. No code does this, and the storage holds one record rather than a list. The model follows the code: there is no registry, no allocation and no rank renumbering.

## Model

| member | source | states |
|---|---|---|
| Waitlist.Default | lib.rs:41-55 | a fresh contract has the all-zero profile (nine details, age and rank all 0) and the alert flag false |
| Waitlist.PatientDetailsSetter | lib.rs:60-77 | after the setter, each of the eleven fields equals its argument; it takes any `i32` values, and there is no requires and no failure result |
| Waitlist.GetPatientAlertStatus | lib.rs:81-83 | the getter returns exactly the stored alert flag |
| Waitlist.SetPatientAlertStatus | lib.rs:88-90 | after set, the flag is true and the other ten fields are unchanged |
| Waitlist.ResetPatientAlertStatus | lib.rs:95-97 | after reset, the flag is false and the other ten fields are unchanged |
| Waitlist.ProfileAndFlagDetermineStorage | lib.rs:22-32 | the profile plus the alert flag cover all eleven storage fields, so two storages that agree on both are equal |
| Waitlist.DefaultWorks | lib.rs:114-117 | the unit test: the getter on a freshly constructed contract returns false |
| Waitlist.SetterForgetsPriorState | lib.rs:66-76 | the setter's result does not depend on the prior storage, and it is exactly the argument values |
| Waitlist.SetterIdempotent | lib.rs:60-77 | calling the setter twice with the same arguments equals calling it once |
| Waitlist.EveryStorageReachable | lib.rs:60-65 | because nothing is validated, every storage value, including a negative age or rank, is reached from a fresh contract by one setter call |
| Waitlist.GetterObservesWrites | lib.rs:81-83 | the getter reads back the flag written by the setter (its argument), by set (true) and by reset (false) |
| Waitlist.FlagMessagesIdempotent | lib.rs:88-97 | set twice equals set once; reset twice equals reset once; of a set and a reset in a row, the later one wins |
| Waitlist.FlagMessagesNoOpWhenAlreadyThere | lib.rs:88-97 | set on a raised flag and reset on a cleared flag leave the storage as it was |
| Trace.Step | lib.rs:80-97 | get, set and reset never change the profile, and get (which takes `&self`) changes nothing at all |
| Trace.RunAlertIsLastWrite | lib.rs:66-97 | after any sequence of messages, the flag is the one written by the last setter, set or reset call, or the initial flag if there was none |
| Trace.RunProfileIsLastWrite | lib.rs:66-97 | after any sequence of messages, the profile (details and rank) is the one written by the last setter call, or the initial profile if there was none |
| Trace.RunIsDeterminedByLastWrites | lib.rs:66-97 | the whole final storage of any sequence of messages is the last setter's profile combined with the last flag write |
| Trace.OnlySetterChangesProfile | lib.rs:87-97 | a sequence of messages without a setter call leaves the rank and every detail field unchanged |
| Trace.SetterForgetsHistory | lib.rs:66-76 | a sequence that ends in a setter call ends in the setter's arguments, whatever the starting storage and earlier messages |
| Trace.FreshContractReportsNoAlert | lib.rs:114-117 | on a fresh contract, however many reads happen first, the getter returns false |

## Left out

- The ink! contract machinery is not modelled: `#[ink::contract]`, `#[ink(storage)]`, `#[ink(message)]`, on-chain storage and dispatch (lib.rs:1-11). This is the hosting environment, not logic. Messages are modelled as running one at a time, in the order given.
- Organ allocation, rank renumbering and any list of patients are not modelled. They appear only in comments (lib.rs:13-18, 92-93), and no code implements them.
- SMS and e-mail notification are not modelled (lib.rs:17-18, 85-86). They are external and not implemented.
- The `i32` detail fields are opaque values, not strings (lib.rs:19-21). No arithmetic is done on them, so 32-bit overflow cannot arise and only the `i32` range is modelled.
- The `#[ink::test]` harness is not modelled. Only its assertion is kept, as `Waitlist.DefaultWorks` and `Trace.FreshContractReportsNoAlert`.
