/**
 * The role matrix of the individual-admin edit form: a list of `{role, library?}` records,
 * the check that decides whether one checkbox of the matrix is ticked, and the reducer that
 * applies one checkbox toggle and returns the new list.
 */
module AdminRoles {
  import opened Options
  import opened Seqs

  /** The value of a record's `role` field. */
  datatype RoleName = System | ManagerAll | LibrarianAll | Manager | Librarian

  /** One record of an admin's role list; `library` is a library's short name. */
  datatype AdminRole = AdminRole(role: RoleName, library: Option<string>)

  predicate IsBlanket(role: RoleName) {
    role == System || role == ManagerAll || role == LibrarianAll
  }

  /** The shape the server and the form use: blanket roles name no library, per-library roles name one.
      The same shape describes a checkbox of the matrix. */
  predicate WellFormedRole(role: RoleName, library: Option<string>) {
    IsBlanket(role) <==> library.None?
  }

  predicate AllWellFormed(roles: seq<AdminRole>) {
    forall i :: 0 <= i < |roles| ==> WellFormedRole(roles[i].role, roles[i].library)
  }

  /** Whether the record `r` on its own ticks the checkbox (`role`, `library`). */
  predicate Ticks(r: AdminRole, role: RoleName, library: Option<string>) {
    || r.role == System
    || (r.role == ManagerAll && role != System)
    || (r.role == LibrarianAll && role == Librarian)
    || (r.role == Manager && r.library == library)
    || (r.role == role && r.library == library)
  }

  predicate Holds(roles: seq<AdminRole>, role: RoleName, library: Option<string>) {
    AdminRole(role, library) in roles
  }

  // The access a role list grants, read off the role hierarchy: system implies every grant,
  // manager-all implies every manager and librarian grant, librarian-all every librarian grant,
  // and a library's manager grant implies its librarian grant.

  predicate SystemGranted(roles: seq<AdminRole>) {
    Holds(roles, System, None)
  }

  predicate ManagerAllGranted(roles: seq<AdminRole>) {
    SystemGranted(roles) || Holds(roles, ManagerAll, None)
  }

  predicate LibrarianAllGranted(roles: seq<AdminRole>) {
    ManagerAllGranted(roles) || Holds(roles, LibrarianAll, None)
  }

  predicate Granted(roles: seq<AdminRole>, role: RoleName, library: Option<string>) {
    match role
    case System => SystemGranted(roles)
    case ManagerAll => ManagerAllGranted(roles)
    case LibrarianAll => LibrarianAllGranted(roles)
    case Manager => ManagerAllGranted(roles) || Holds(roles, Manager, library)
    case Librarian =>
      LibrarianAllGranted(roles) || Holds(roles, Manager, library) || Holds(roles, Librarian, library)
  }

  /** `isSelected(role, library)`: some record ticks the checkbox. On well-formed records and
      checkboxes this is exactly the access the hierarchy grants. */
  function IsSelected(roles: seq<AdminRole>, role: RoleName, library: Option<string>): (b: bool)
    ensures AllWellFormed(roles) && WellFormedRole(role, library) ==> (b <==> Granted(roles, role, library))
    ensures SystemGranted(roles) ==> b
  {
    exists i | 0 <= i < |roles| :: Ticks(roles[i], role, library)
  }

  // Predicates handed to `filter`.

  function NamesOther(library: Option<string>): AdminRole -> bool {
    (r: AdminRole) => r.library != library
  }

  function Names(library: Option<string>): AdminRole -> bool {
    (r: AdminRole) => r.library == library
  }

  function IsManagerRecord(r: AdminRole): bool {
    r.role == Manager
  }

  function IsManagerOfOther(library: Option<string>): AdminRole -> bool {
    (r: AdminRole) => r.role == Manager && r.library != library
  }

  /** One `role` record for each short name of `allLibraries` other than `library`, in order. */
  function RolesFor(role: RoleName, allLibraries: seq<string>, library: Option<string>): (r: seq<AdminRole>)
    ensures forall x :: x in r <==>
      x.role == role && x.library.Some? && x.library.value in allLibraries && x.library != library
  {
    if |allLibraries| == 0 then []
    else
      (if Some(allLibraries[0]) != library then [AdminRole(role, Some(allLibraries[0]))] else [])
      + RolesFor(role, allLibraries[1..], library)
  }

  /** Toggling the system checkbox: everything or nothing. */
  function ToggleSystem(roles: seq<AdminRole>): (r: seq<AdminRole>)
    ensures r == [] || r == [AdminRole(System, None)]
    ensures AllWellFormed(roles) ==> (r == [] <==> SystemGranted(roles))
  {
    if IsSelected(roles, System, None) then [] else [AdminRole(System, None)]
  }

  /** Toggling the manager-all checkbox: a granted manager-all (directly or through system)
      falls back to librarian-all, otherwise manager-all alone is granted. */
  function ToggleManagerAll(roles: seq<AdminRole>): (r: seq<AdminRole>)
    ensures r == [AdminRole(LibrarianAll, None)] || r == [AdminRole(ManagerAll, None)]
    ensures AllWellFormed(roles) ==> (r == [AdminRole(LibrarianAll, None)] <==> ManagerAllGranted(roles))
  {
    if IsSelected(roles, ManagerAll, None) then [AdminRole(LibrarianAll, None)]
    else [AdminRole(ManagerAll, None)]
  }

  /** Toggling the librarian-all checkbox: the per-library manager records survive, every other
      record goes, and librarian-all is added unless it was granted. */
  function ToggleLibrarianAll(roles: seq<AdminRole>): (r: seq<AdminRole>)
    ensures forall i :: 0 <= i < |r| ==> r[i].role == Manager || r[i] == AdminRole(LibrarianAll, None)
    ensures forall x :: x in roles && x.role == Manager ==> x in r
  {
    var managers := Filter(IsManagerRecord, roles);
    if IsSelected(roles, LibrarianAll, None) then managers
    else managers + [AdminRole(LibrarianAll, None)]
  }

  /** Toggling the manager checkbox of `library`. */
  function ToggleManager(roles: seq<AdminRole>, allLibraries: seq<string>, library: Option<string>): (r: seq<AdminRole>)
    ensures !IsSelected(roles, Manager, library) ==>
      |r| > 0 && r[|r| - 1] == AdminRole(Manager, library)
      && forall i :: 0 <= i < |r| - 1 ==> r[i].library != library && r[i] in roles
    ensures IsSelected(roles, Manager, library) && IsSelected(roles, ManagerAll, None) ==>
      |r| > 0 && r[|r| - 1] == AdminRole(LibrarianAll, None)
      && forall i :: 0 <= i < |r| - 1 ==>
           (r[i].role == Manager && r[i].library.Some? && r[i].library.value in allLibraries && r[i].library != library)
    ensures IsSelected(roles, Manager, library) && !IsSelected(roles, ManagerAll, None) ==>
      forall i :: 0 <= i < |r| ==> r[i].library == library ==> r[i] == AdminRole(Librarian, library)
  {
    if IsSelected(roles, Manager, library) then
      if IsSelected(roles, ManagerAll, None) then
        RolesFor(Manager, allLibraries, library) + [AdminRole(LibrarianAll, None)]
      else
        var kept := Filter(NamesOther(library), roles);
        if !IsSelected(roles, LibrarianAll, None) then kept + [AdminRole(Librarian, library)] else kept
    else
      Filter(NamesOther(library), roles) + [AdminRole(Manager, library)]
  }

  /** Toggling the librarian checkbox of `library`. The source tests librarian-all a second time
      inside the branch where it already holds; that test always succeeds, so it is one branch. */
  function ToggleLibrarian(roles: seq<AdminRole>, allLibraries: seq<string>, library: Option<string>): (r: seq<AdminRole>)
    ensures !IsSelected(roles, Librarian, library) ==>
      |r| == |roles| + 1 && r[..|roles|] == roles && r[|roles|] == AdminRole(Librarian, library)
  {
    if IsSelected(roles, Librarian, library) then
      if IsSelected(roles, LibrarianAll, None) then
        if IsSelected(roles, ManagerAll, None) then
          RolesFor(Manager, allLibraries, library)
        else
          Filter(IsManagerOfOther(library), roles) + RolesFor(Librarian, allLibraries, library)
      else
        Filter(NamesOther(library), roles)
    else
      roles + [AdminRole(Librarian, library)]
  }

  /** `handleRoleChange(role, library)`: the role list after one checkbox of the matrix is toggled.
      `allLibraries` holds the short names of every library the form lists. */
  function HandleRoleChange(roles: seq<AdminRole>, allLibraries: seq<string>, role: RoleName, library: Option<string>): (r: seq<AdminRole>)
    ensures role == System ==> (r == [] <==> IsSelected(roles, System, None))
    ensures role == ManagerAll ==> |r| == 1
  {
    match role
    case System => ToggleSystem(roles)
    case ManagerAll => ToggleManagerAll(roles)
    case LibrarianAll => ToggleLibrarianAll(roles)
    case Manager => ToggleManager(roles, allLibraries, library)
    case Librarian => ToggleLibrarian(roles, allLibraries, library)
  }

  /** The admin being edited: a JavaScript object, told apart from other objects by `identity`,
      whose `roles` may be missing. */
  datatype Admin = Admin(identity: nat, roles: Option<seq<AdminRole>>)

  /** The role list the form starts from (the constructor): the admin's roles, or none. */
  function InitialRoles(item: Option<Admin>): (r: seq<AdminRole>)
    ensures item.Some? && item.value.roles.Some? ==> r == item.value.roles.value
    ensures item.None? || item.value.roles.None? ==> r == []
  {
    if item.Some? && item.value.roles.Some? then item.value.roles.value else []
  }

  /** `componentWillReceiveProps`: an admin other than the current one (by object identity) brings
      its roles, or none; no admin, or the same admin object, keeps the roles being edited. */
  function ReceiveProps(roles: seq<AdminRole>, current: Option<Admin>, next: Option<Admin>): (r: seq<AdminRole>)
    ensures next.None? ==> r == roles
    ensures next.Some? && current.Some? && next.value.identity == current.value.identity ==> r == roles
    ensures next.Some? && (current.None? || next.value.identity != current.value.identity) ==> r == InitialRoles(next)
  {
    if next.Some? && (current.None? || next.value.identity != current.value.identity) then
      next.value.roles.GetOr([])
    else roles
  }

  /** Receiving the same admin a second time changes nothing. */
  lemma ReceivePropsIdempotent(roles: seq<AdminRole>, current: Option<Admin>, next: Option<Admin>)
    ensures ReceiveProps(ReceiveProps(roles, current, next), next, next) == ReceiveProps(roles, current, next)
  {
  }

  // ----- Lemmas -----

  /** Filtering on the library a record names: the filter keeps and the filter drops. */
  lemma {:induction false} NamesSplit(roles: seq<AdminRole>, library: Option<string>)
    ensures Filter(NamesOther(library), Filter(NamesOther(library), roles)) == Filter(NamesOther(library), roles)
    ensures Filter(Names(library), Filter(NamesOther(library), roles)) == []
  {
    var kept := Filter(NamesOther(library), roles);
    FilterKeepsAll(NamesOther(library), kept);
    FilterDropsAll(Names(library), kept);
  }

  /** Every toggle keeps the role list well formed. */
  lemma {:induction false} ToggleKeepsWellFormed(roles: seq<AdminRole>, allLibraries: seq<string>, role: RoleName, library: Option<string>)
    requires AllWellFormed(roles) && WellFormedRole(role, library)
    ensures AllWellFormed(HandleRoleChange(roles, allLibraries, role, library))
  {
    var r := HandleRoleChange(roles, allLibraries, role, library);
    forall i | 0 <= i < |r|
      ensures WellFormedRole(r[i].role, r[i].library)
    {
      assert r[i] in r;
      if role == Manager || role == Librarian || role == LibrarianAll {
        if r[i] !in roles {
          assert r[i].library.Some? || r[i] == AdminRole(LibrarianAll, None);
        }
      }
    }
  }

  /** Toggling the system checkbox twice from any list ends at the list that holds exactly what
      the first toggle found: from no roles, back to no roles. */
  lemma ToggleSystemTwice(roles: seq<AdminRole>)
    ensures ToggleSystem(ToggleSystem(roles)) == (if IsSelected(roles, System, None) then [AdminRole(System, None)] else [])
    ensures ToggleSystem(ToggleSystem([])) == []
  {
    assert Ticks(AdminRole(System, None), System, None);
    assert [AdminRole(System, None)][0] == AdminRole(System, None);
  }

  /** Toggling librarian-all keeps exactly the manager records, in order, and appends librarian-all
      exactly when it was not granted before. */
  lemma {:induction false} ToggleLibrarianAllKeepsManagers(roles: seq<AdminRole>)
    requires AllWellFormed(roles)
    ensures var r := ToggleLibrarianAll(roles);
      && Filter(IsManagerRecord, r) == Filter(IsManagerRecord, roles)
      && Filter(x => !IsManagerRecord(x), r) == (if LibrarianAllGranted(roles) then [] else [AdminRole(LibrarianAll, None)])
  {
    var managers := Filter(IsManagerRecord, roles);
    FilterKeepsAll(IsManagerRecord, managers);
    FilterDropsAll(x => !IsManagerRecord(x), managers);
    assert IsSelected(roles, LibrarianAll, None) == LibrarianAllGranted(roles);
    var la := [AdminRole(LibrarianAll, None)];
    FilterAppend(IsManagerRecord, managers, la);
    FilterAppend(x => !IsManagerRecord(x), managers, la);
  }

  /** Promoting a library's librarian (or nobody) to its manager: the records naming other libraries
      or none stay as they were and in order, and the library's own records become the single manager
      record, appended last. */
  lemma {:induction false} PromoteManager(roles: seq<AdminRole>, allLibraries: seq<string>, library: Option<string>)
    requires AllWellFormed(roles) && library.Some?
    requires !Granted(roles, Manager, library)
    ensures var r := ToggleManager(roles, allLibraries, library);
      && Filter(NamesOther(library), r) == Filter(NamesOther(library), roles)
      && Filter(Names(library), r) == [AdminRole(Manager, library)]
      && r[|r| - 1] == AdminRole(Manager, library)
      && Granted(r, Manager, library) && Granted(r, Librarian, library)
  {
    var kept := Filter(NamesOther(library), roles);
    var m := [AdminRole(Manager, library)];
    NamesSplit(roles, library);
    FilterAppend(NamesOther(library), kept, m);
    FilterAppend(Names(library), kept, m);
    assert (kept + m)[|kept|] == AdminRole(Manager, library);
  }

  /** Demoting a library's manager under a blanket manager grant (manager-all or system): the
      result grants manager access to exactly the other listed libraries, plus librarian-all, so the
      library keeps librarian access only. */
  lemma {:induction false} DemoteManagerUnderManagerAll(roles: seq<AdminRole>, allLibraries: seq<string>, library: Option<string>)
    requires AllWellFormed(roles) && library.Some?
    requires ManagerAllGranted(roles)
    ensures var r := ToggleManager(roles, allLibraries, library);
      && Granted(r, Librarian, library) && !Granted(r, Manager, library)
      && LibrarianAllGranted(r) && !ManagerAllGranted(r)
      && forall l :: Granted(r, Manager, Some(l)) <==> l in allLibraries && Some(l) != library
  {
    assert IsSelected(roles, Manager, library);
    assert IsSelected(roles, ManagerAll, None);
    var r := ToggleManager(roles, allLibraries, library);
    var managers := RolesFor(Manager, allLibraries, library);
    assert r == managers + [AdminRole(LibrarianAll, None)];
    assert AdminRole(LibrarianAll, None) in r;
    assert AdminRole(System, None) !in r;
    assert AdminRole(ManagerAll, None) !in r;
    assert AdminRole(Manager, library) !in r;
  }

  /** What survives dropping every record that names `library`: the blanket records, and no
      per-library record of `library`. */
  lemma {:induction false} KeptFacts(roles: seq<AdminRole>, library: Option<string>)
    requires AllWellFormed(roles) && library.Some?
    ensures var kept := Filter(NamesOther(library), roles);
      && AllWellFormed(kept)
      && !Holds(kept, Manager, library) && !Holds(kept, Librarian, library)
      && (SystemGranted(kept) <==> SystemGranted(roles))
      && (ManagerAllGranted(kept) <==> ManagerAllGranted(roles))
      && (LibrarianAllGranted(kept) <==> LibrarianAllGranted(roles))
  {
    var kept := Filter(NamesOther(library), roles);
    forall i | 0 <= i < |kept|
      ensures WellFormedRole(kept[i].role, kept[i].library)
    {
      assert kept[i] in roles;
    }
    if Holds(roles, System, None) {
      assert AdminRole(System, None) in kept;
    }
    if Holds(roles, ManagerAll, None) {
      assert AdminRole(ManagerAll, None) in kept;
    }
    if Holds(roles, LibrarianAll, None) {
      assert AdminRole(LibrarianAll, None) in kept;
    }
  }

  /** The manager toggle of a library whose manager grant comes from its own record alone: the
      library's records are dropped and a librarian record appended unless librarian-all covers it. */
  lemma {:induction false} DemoteManagerAloneShape(roles: seq<AdminRole>, allLibraries: seq<string>, library: Option<string>)
    requires AllWellFormed(roles) && library.Some?
    requires Holds(roles, Manager, library) && !ManagerAllGranted(roles)
    ensures ToggleManager(roles, allLibraries, library)
         == Filter(NamesOther(library), roles) + (if LibrarianAllGranted(roles) then [] else [AdminRole(Librarian, library)])
  {
    assert IsSelected(roles, Manager, library);
    assert !IsSelected(roles, ManagerAll, None);
    assert IsSelected(roles, LibrarianAll, None) == LibrarianAllGranted(roles);
  }

  /** Demoting a library's manager with no blanket manager grant: the records naming other
      libraries or none stay as they were, and the library's own records become a librarian
      record, or nothing when librarian-all already covers the library. */
  lemma {:induction false} DemoteManagerAlone(roles: seq<AdminRole>, allLibraries: seq<string>, library: Option<string>)
    requires AllWellFormed(roles) && library.Some?
    requires Holds(roles, Manager, library) && !ManagerAllGranted(roles)
    ensures var r := ToggleManager(roles, allLibraries, library);
      && Granted(r, Librarian, library) && !Granted(r, Manager, library)
      && Filter(NamesOther(library), r) == Filter(NamesOther(library), roles)
      && Filter(Names(library), r) == (if LibrarianAllGranted(roles) then [] else [AdminRole(Librarian, library)])
  {
    var kept := Filter(NamesOther(library), roles);
    var tail := if LibrarianAllGranted(roles) then [] else [AdminRole(Librarian, library)];
    DemoteManagerAloneShape(roles, allLibraries, library);
    DemoteManagerAloneRecords(kept, tail, roles, library);
    KeptFacts(roles, library);
    if !LibrarianAllGranted(roles) {
      assert AdminRole(Librarian, library) in kept + tail;
    } else {
      assert LibrarianAllGranted(kept + tail) by {
        assert Holds(kept, LibrarianAll, None);
      }
    }
    assert !Holds(kept + tail, Manager, library) by {
      assert forall x :: x in kept + tail ==> x in kept || x in tail;
    }
    assert !ManagerAllGranted(kept + tail) by {
      assert forall x :: x in kept + tail ==> x in kept || x in tail;
    }
  }

  lemma {:induction false} DemoteManagerAloneRecords(kept: seq<AdminRole>, tail: seq<AdminRole>, roles: seq<AdminRole>, library: Option<string>)
    requires kept == Filter(NamesOther(library), roles)
    requires tail == [] || tail == [AdminRole(Librarian, library)]
    ensures Filter(NamesOther(library), kept + tail) == kept
    ensures Filter(Names(library), kept + tail) == tail
  {
    NamesSplit(roles, library);
    FilterAppend(NamesOther(library), kept, tail);
    FilterAppend(Names(library), kept, tail);
  }

  /** Demoting a library's librarian under manager-all (or system): the other listed libraries
      get manager records and nothing else, and the library loses all access. */
  lemma {:induction false} DemoteLibrarianUnderManagerAll(roles: seq<AdminRole>, allLibraries: seq<string>, library: Option<string>)
    requires AllWellFormed(roles) && library.Some?
    requires ManagerAllGranted(roles)
    ensures var r := ToggleLibrarian(roles, allLibraries, library);
      && !Granted(r, Librarian, library) && !Granted(r, Manager, library)
      && !LibrarianAllGranted(r)
      && forall l :: Granted(r, Manager, Some(l)) <==> l in allLibraries && Some(l) != library
  {
    assert IsSelected(roles, Librarian, library);
    assert IsSelected(roles, LibrarianAll, None);
    assert IsSelected(roles, ManagerAll, None);
    var r := ToggleLibrarian(roles, allLibraries, library);
    assert r == RolesFor(Manager, allLibraries, library);
    assert AdminRole(System, None) !in r;
    assert AdminRole(ManagerAll, None) !in r;
    assert AdminRole(LibrarianAll, None) !in r;
    assert AdminRole(Manager, library) !in r;
    assert AdminRole(Librarian, library) !in r;
  }

  /** The librarian toggle of a granted library under librarian-all alone: the manager records of
      other libraries, then a librarian record for every other listed library. */
  lemma {:induction false} DemoteLibrarianUnderLibrarianAllShape(roles: seq<AdminRole>, allLibraries: seq<string>, library: Option<string>)
    requires AllWellFormed(roles) && library.Some?
    requires Holds(roles, LibrarianAll, None) && !ManagerAllGranted(roles)
    ensures ToggleLibrarian(roles, allLibraries, library)
         == Filter(IsManagerOfOther(library), roles) + RolesFor(Librarian, allLibraries, library)
  {
    assert IsSelected(roles, Librarian, library);
    assert IsSelected(roles, LibrarianAll, None);
    assert !IsSelected(roles, ManagerAll, None);
  }

  /** Demoting a library's librarian under librarian-all alone: the other listed libraries get
      librarian records, the manager records of other libraries survive in order, and the library
      loses all access. */
  lemma {:induction false} DemoteLibrarianUnderLibrarianAll(roles: seq<AdminRole>, allLibraries: seq<string>, library: Option<string>)
    requires AllWellFormed(roles) && library.Some?
    requires Holds(roles, LibrarianAll, None) && !ManagerAllGranted(roles)
    ensures var r := ToggleLibrarian(roles, allLibraries, library);
      && !Granted(r, Librarian, library) && !Granted(r, Manager, library)
      && !LibrarianAllGranted(r)
      && (forall l :: l in allLibraries && Some(l) != library ==> Granted(r, Librarian, Some(l)))
      && Filter(IsManagerRecord, r) == Filter(IsManagerOfOther(library), roles)
  {
    var managers := Filter(IsManagerOfOther(library), roles);
    var librarians := RolesFor(Librarian, allLibraries, library);
    DemoteLibrarianUnderLibrarianAllShape(roles, allLibraries, library);
    var r := managers + librarians;
    assert forall x :: x in r ==> x in managers || x in librarians;
    assert forall i :: 0 <= i < |managers| ==> managers[i].role == Manager && managers[i].library != library;
    assert !Holds(r, Manager, library);
    assert !Holds(r, Librarian, library);
    assert !Holds(r, System, None);
    assert !Holds(r, ManagerAll, None);
    assert !Holds(r, LibrarianAll, None);
    forall l | l in allLibraries && Some(l) != library
      ensures Granted(r, Librarian, Some(l))
    {
      assert AdminRole(Librarian, Some(l)) in librarians;
    }
    ManagerRecordsOf(managers, librarians, roles, allLibraries, library);
  }

  lemma {:induction false} ManagerRecordsOf(managers: seq<AdminRole>, librarians: seq<AdminRole>, roles: seq<AdminRole>, allLibraries: seq<string>, library: Option<string>)
    requires managers == Filter(IsManagerOfOther(library), roles)
    requires librarians == RolesFor(Librarian, allLibraries, library)
    ensures Filter(IsManagerRecord, managers + librarians) == managers
  {
    FilterKeepsAll(IsManagerRecord, managers);
    FilterDropsAll(IsManagerRecord, librarians);
    FilterAppend(IsManagerRecord, managers, librarians);
  }

  /** Demoting a library's librarian with no blanket grant: only the library's records go. */
  lemma {:induction false} DemoteLibrarianAlone(roles: seq<AdminRole>, allLibraries: seq<string>, library: Option<string>)
    requires AllWellFormed(roles) && library.Some?
    requires Granted(roles, Librarian, library) && !LibrarianAllGranted(roles)
    ensures var r := ToggleLibrarian(roles, allLibraries, library);
      && !Granted(r, Librarian, library) && !Granted(r, Manager, library)
      && Filter(NamesOther(library), r) == Filter(NamesOther(library), roles)
      && Filter(Names(library), r) == []
  {
    var r := ToggleLibrarian(roles, allLibraries, library);
    assert r == Filter(NamesOther(library), roles) by {
      assert IsSelected(roles, Librarian, library);
      assert !IsSelected(roles, LibrarianAll, None);
    }
    KeptFacts(roles, library);
    NamesSplit(roles, library);
  }

  /** Every toggle of a well-formed checkbox flips that checkbox. */
  lemma {:induction false} ToggleFlipsCheckbox(roles: seq<AdminRole>, allLibraries: seq<string>, role: RoleName, library: Option<string>)
    requires AllWellFormed(roles) && WellFormedRole(role, library)
    ensures IsSelected(HandleRoleChange(roles, allLibraries, role, library), role, library)
        == !IsSelected(roles, role, library)
  {
    var r := HandleRoleChange(roles, allLibraries, role, library);
    ToggleKeepsWellFormed(roles, allLibraries, role, library);
    match role
    case System =>
      assert SystemGranted([AdminRole(System, None)]);
    case ManagerAll =>
      assert ManagerAllGranted([AdminRole(ManagerAll, None)]);
      assert !ManagerAllGranted([AdminRole(LibrarianAll, None)]);
    case LibrarianAll =>
      var managers := Filter(IsManagerRecord, roles);
      if LibrarianAllGranted(roles) {
        assert r == managers;
        assert !LibrarianAllGranted(r);
      } else {
        assert AdminRole(LibrarianAll, None) in r;
      }
    case Manager =>
      if ManagerAllGranted(roles) {
        DemoteManagerUnderManagerAll(roles, allLibraries, library);
      } else if Holds(roles, Manager, library) {
        DemoteManagerAlone(roles, allLibraries, library);
      } else {
        PromoteManager(roles, allLibraries, library);
      }
    case Librarian =>
      if ManagerAllGranted(roles) {
        DemoteLibrarianUnderManagerAll(roles, allLibraries, library);
      } else if LibrarianAllGranted(roles) {
        DemoteLibrarianUnderLibrarianAll(roles, allLibraries, library);
      } else if Granted(roles, Librarian, library) {
        DemoteLibrarianAlone(roles, allLibraries, library);
      } else {
        assert AdminRole(Librarian, library) in r;
      }
  }

  /** Toggling manager-all on and then off does not give back per-library manager grants: every
      library ends with librarian access only. */
  lemma ManagerAllOnOffLeavesLibrarians(roles: seq<AdminRole>, allLibraries: seq<string>)
    requires AllWellFormed(roles) && !ManagerAllGranted(roles)
    ensures var r := ToggleManagerAll(ToggleManagerAll(roles));
      && r == [AdminRole(LibrarianAll, None)]
      && forall l :: Granted(r, Librarian, Some(l)) && !Granted(r, Manager, Some(l))
  {
    assert IsSelected([AdminRole(ManagerAll, None)], ManagerAll, None) by {
      assert Ticks([AdminRole(ManagerAll, None)][0], ManagerAll, None);
    }
  }

  /** The form's demotion of the nypl manager under manager-all, with libraries nypl and bpl. */
  lemma ManagerAllDemotionExample()
    ensures ToggleManager([AdminRole(ManagerAll, None)], ["nypl", "bpl"], Some("nypl"))
         == [AdminRole(Manager, Some("bpl")), AdminRole(LibrarianAll, None)]
  {
    var roles := [AdminRole(ManagerAll, None)];
    assert Ticks(roles[0], Manager, Some("nypl"));
    assert Ticks(roles[0], ManagerAll, None);
  }
}
