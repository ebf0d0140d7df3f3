/**
 * The customer list of the admin panel (UserService): users loaded with their
 * appointments, one entry per phone number, each with how many of the user's
 * appointments are confirmed or completed and how many are cancelled.
 */
module Users {
  import opened Domain
  import opened Seqs

  /** A user as the repository loads it; None stands for a null Appointments collection. */
  datatype LoadedUser = LoadedUser(user: User, appointments: Option<seq<Appointment>>)

  /** Models/ViewModels/UserListModel.cs */
  datatype UserListEntry = UserListEntry(user: User, confirmCount: nat, cancelCount: nat)

  function PhoneOf(u: LoadedUser): string
  {
    u.user.phoneNumber
  }

  /** Where the first user with a phone number stands (|users| when none has it). */
  function FirstWithPhone(users: seq<LoadedUser>, phone: string): nat
  {
    FirstWithKey(users, PhoneOf, phone)
  }

  /** GroupBy(PhoneNumber).Select(First) over the loaded users. */
  function DistinctByPhone(users: seq<LoadedUser>): (r: seq<LoadedUser>)
    ensures |r| <= |users|
  {
    GroupFirsts(users, PhoneOf)
  }

  /**
   * The de-duplicated users: no phone number twice, every number of the input
   * present, each kept user the first with its number, and the kept users in
   * the order their numbers first occur.
   */
  lemma DistinctByPhoneOnePerNumber(users: seq<LoadedUser>)
    ensures var r := DistinctByPhone(users);
            && (forall k, l :: 0 <= k < l < |r| ==> PhoneOf(r[k]) != PhoneOf(r[l]))
            && (forall i :: 0 <= i < |users| ==> FirstWithPhone(r, PhoneOf(users[i])) < |r|)
            && (forall k :: 0 <= k < |r| ==>
                  FirstWithPhone(users, PhoneOf(r[k])) < |users| && r[k] == users[FirstWithPhone(users, PhoneOf(r[k]))])
            && (forall k, l :: 0 <= k < l < |r| ==>
                  FirstWithPhone(users, PhoneOf(r[k])) < FirstWithPhone(users, PhoneOf(r[l])))
  {
    var r := DistinctByPhone(users);
    forall k, l | 0 <= k < l < |r|
      ensures PhoneOf(r[k]) != PhoneOf(r[l])
      ensures FirstWithPhone(users, PhoneOf(r[k])) < FirstWithPhone(users, PhoneOf(r[l]))
    {
      GroupFirstsKeysDistinct(users, PhoneOf, k, l);
      GroupFirstsKeepsOrder(users, PhoneOf, k, l);
    }
    forall i | 0 <= i < |users| ensures FirstWithPhone(r, PhoneOf(users[i])) < |r| {
      GroupFirstsCoversKeys(users, PhoneOf, i);
    }
    forall k | 0 <= k < |r|
      ensures FirstWithPhone(users, PhoneOf(r[k])) < |users| && r[k] == users[FirstWithPhone(users, PhoneOf(r[k]))]
    {
      GroupFirstsKeepsFirst(users, PhoneOf, k);
    }
  }

  /** The store keeps phone numbers unique, and then nothing is dropped. */
  lemma DistinctByPhoneKeepsUniqueList(users: seq<LoadedUser>)
    requires forall i, j :: 0 <= i < j < |users| ==> PhoneOf(users[i]) != PhoneOf(users[j])
    ensures DistinctByPhone(users) == users
  {
    GroupFirstsOfDistinctKeys(users, PhoneOf);
  }

  predicate IsConfirmedOrCompleted(a: Appointment)
  {
    a.status == Confirmed || a.status == Completed
  }

  predicate IsCancelled(a: Appointment)
  {
    a.status == Cancelled
  }

  /** ConfirmCount: appointments confirmed or completed; 0 for a null collection. */
  function ConfirmCount(appointments: Option<seq<Appointment>>): (n: nat)
    ensures n == 0 <==> appointments.None? || forall i :: 0 <= i < |appointments.value| ==> !IsConfirmedOrCompleted(appointments.value[i])
  {
    match appointments
    case None => 0
    case Some(a) => Count(a, IsConfirmedOrCompleted)
  }

  /** CancelCount: cancelled appointments; 0 for a null collection. */
  function CancelCount(appointments: Option<seq<Appointment>>): (n: nat)
    ensures n == 0 <==> appointments.None? || forall i :: 0 <= i < |appointments.value| ==> !IsCancelled(appointments.value[i])
  {
    match appointments
    case None => 0
    case Some(a) => Count(a, IsCancelled)
  }

  /** A confirmed or completed appointment is never cancelled, so the two counts never exceed the user's appointments. */
  lemma CountsWithinAppointments(appointments: seq<Appointment>)
    ensures ConfirmCount(Some(appointments)) + CancelCount(Some(appointments)) <= |appointments|
  {
    CountDisjoint(appointments, IsConfirmedOrCompleted, IsCancelled);
  }

  /** The user's list entry: its two counts never exceed its appointments, and are 0 when none were loaded. */
  function ListEntry(u: LoadedUser): (r: UserListEntry)
    ensures r.user == u.user
    ensures u.appointments.None? ==> r.confirmCount == 0 && r.cancelCount == 0
    ensures u.appointments.Some? ==> r.confirmCount + r.cancelCount <= |u.appointments.value|
  {
    match u.appointments
    case None => UserListEntry(u.user, 0, 0)
    case Some(a) =>
      CountsWithinAppointments(a);
      UserListEntry(u.user, ConfirmCount(u.appointments), CancelCount(u.appointments))
  }

  /** GetAllUsersAsync's result: one entry per distinct user, in order. */
  function UserList(users: seq<LoadedUser>): (r: seq<UserListEntry>)
    ensures |r| == |DistinctByPhone(users)|
  {
    var distinct := DistinctByPhone(users);
    seq(|distinct|, k requires 0 <= k < |distinct| => ListEntry(distinct[k]))
  }

  /** The entry of a user: its counts never exceed its appointments. */
  lemma UserListCountsBounded(users: seq<LoadedUser>, k: int)
    requires 0 <= k < |UserList(users)|
    ensures var e := UserList(users)[k];
            var d := DistinctByPhone(users)[k];
            e.user == d.user
            && e.confirmCount + e.cancelCount <= (if d.appointments.Some? then |d.appointments.value| else 0)
  {
    var d := DistinctByPhone(users)[k];
    if d.appointments.Some? {
      CountsWithinAppointments(d.appointments.value);
    }
  }

  /** GetAllUsersAsync: de-duplicates the loaded users, then appends one entry per user. */
  method GetAllUsers(users: seq<LoadedUser>) returns (result: seq<UserListEntry>)
    ensures result == UserList(users)
  {
    var distinctUsers := DistinctByPhone(users);
    ghost var all := UserList(users);
    result := [];
    for i := 0 to |distinctUsers|
      invariant result == all[..i]
    {
      var user := distinctUsers[i];
      var confirmCount := ConfirmCount(user.appointments);
      var cancelCount := CancelCount(user.appointments);
      result := result + [UserListEntry(user.user, confirmCount, cancelCount)];
    }
  }

  /** GetUserByIdAsync: the user with the id, or None. */
  function UserById(users: seq<User>, id: int): (r: Option<User>)
    ensures r.Some? ==> r.value in users && r.value.id == id
    ensures r.None? <==> forall i :: 0 <= i < |users| ==> users[i].id != id
  {
    FirstWhere(users, (u: User) => u.id == id)
  }
}
