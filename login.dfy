/** The sign-in screen (components/Login.tsx): the lists the identity picker
    offers, the search over them, and the login decision, which resolves the
    account to check, matches the stored credentials, falls back to the demo
    password, and derives the row-level-security filters of the session. */
module Login {
  import opened Basics
  import opened Text
  import opened Records
  import opened Filters
  import opened Dashboard

  /** The job picked in the role selector. */
  datatype Role = NoRole | RSM | SM | ASM | Salesman | Staff | Admin

  /** The selector's option values; the fallback user takes it as job title. */
  function RoleName(r: Role): string {
    match r
    case NoRole => ""
    case RSM => "RSM"
    case SM => "SM"
    case ASM => "ASM"
    case Salesman => "SALESMANNAMEA"
    case Staff => "Staff"
    case Admin => "Admin"
  }

  /** A row of the users sheet. */
  datatype User = User(username: string, name: string, password: string, role: string, jobTitle: string)

  /** The name shown for a stored user: the name, or the user name when there is none. */
  function DisplayName(u: User): string {
    if u.name == "" then u.username else u.name
  }

  /** What `onLogin` receives: the account, the chosen identity as display name,
      the role, the job title and the row-level-security filters. */
  datatype Session = Session(username: string, name: string, role: string, jobTitle: string, rls: FilterSet)

  datatype LoginError = MissingRole | MissingIdentity | DistributorNotFound | WrongPassword

  datatype Outcome = LoggedIn(session: Session) | Refused(error: LoginError)

  const BackdoorPassword := "Bi522129"
  const DemoPassword := "123456"
  const BackdoorSession := Session("Bahaa", "Bahaa", "admin", "IT Manager", map[])

  predicate IsBackdoor(role: Role, password: string) {
    role == Admin && password == BackdoorPassword
  }

  /** The salesman number `handleLogin` reads from a picked identity: the trimmed text before the first " - " of a
      "number - name" entry. */
  function SalesmanId(identity: string): string {
    Trim(BeforeFirst(identity, " - "))
  }

  /** Row `j` is the first data row whose trimmed salesman number is `id`. */
  predicate FirstRowOf(data: seq<PlanRow>, id: string, j: int) {
    && 0 <= j < |data| && Trim(data[j].salesmanNo) == id
    && forall j' :: 0 <= j' < j ==> Trim(data[j'].salesmanNo) != id
  }

  /** There is at most one first row of a number. */
  lemma FirstRowUnique(data: seq<PlanRow>, id: string, j: int, k: int)
    requires FirstRowOf(data, id, j) && FirstRowOf(data, id, k)
    ensures j == k
  {
  }

  /** The row `handleLogin` looks up for a salesman: the first whose trimmed number is `id`. */
  function SalesmanRow(data: seq<PlanRow>, id: string): (r: Option<nat>)
    ensures r.Some? ==> FirstRowOf(data, id, r.value)
    ensures r.None? ==> forall j :: 0 <= j < |data| ==> Trim(data[j].salesmanNo) != id
  {
    FindFirst(data, (row: PlanRow) => Trim(row.salesmanNo) == id)
  }

  /** The account the password is checked against: for a salesman, the
      distributor of the first row with the salesman's number, or none when there
      is no such row or it has no distributor; the chosen identity otherwise. */
  function Target(role: Role, identity: string, data: seq<PlanRow>): (r: Option<string>)
    ensures role != Salesman ==> r == Some(identity)
    ensures role == Salesman ==>
              forall j :: FirstRowOf(data, SalesmanId(identity), j) ==>
                r == if data[j].distName != "" then Some(data[j].distName) else None
    ensures role == Salesman && (forall j :: 0 <= j < |data| ==> Trim(data[j].salesmanNo) != SalesmanId(identity)) ==>
              r == None
  {
    if role == Salesman then
      var id := SalesmanId(identity);
      match SalesmanRow(data, id)
      case Some(k) =>
        assert forall j :: FirstRowOf(data, id, j) ==> j == k by {
          forall j | FirstRowOf(data, id, j) ensures j == k {
            FirstRowUnique(data, id, j, k);
          }
        }
        if data[k].distName != "" then Some(data[k].distName) else None
      case None => None
    else Some(identity)
  }

  /** A stored user matches when its name (or username) or its username equals
      the target, both trimmed and lower-cased, and the trimmed passwords are
      equal. */
  predicate CredentialMatches(u: User, target: string, password: string) {
    && (Lower(Trim(DisplayName(u))) == Lower(Trim(target)) || Lower(Trim(u.username)) == Lower(Trim(target)))
    && Trim(u.password) == Trim(password)
  }

  /** The stored-user lookup of the login: the first matching user, and none
      exactly when no stored user matches. */
  function Credential(users: seq<User>, target: string, password: string): (r: Option<nat>)
    ensures r.Some? ==> r.value < |users| && CredentialMatches(users[r.value], target, password)
    ensures r.Some? ==> forall j :: 0 <= j < r.value ==> !CredentialMatches(users[j], target, password)
    ensures r.None? ==> forall j :: 0 <= j < |users| ==> !CredentialMatches(users[j], target, password)
  {
    FindFirst(users, (u: User) => CredentialMatches(u, target, password))
  }

  /** The role of the demo user: `admin` for Admin and RSM, `user` otherwise. */
  function FallbackRole(role: Role): string {
    if role == Admin || role == RSM then "admin" else "user"
  }

  /** The row-level-security filters of a session: RSM, SM and ASM are pinned to
      the chosen identity in their own column, a salesman to the number read
      from the chosen entry; Staff and Admin are not restricted. */
  function Rls(role: Role, identity: string): (r: FilterSet)
    ensures role in {Staff, Admin, NoRole} <==> r == map[]
    ensures forall f :: f in r ==> f in {Rsm, Sm, DistName, SalesmanNo} && (f == SalesmanNo <==> role == Salesman)
    ensures role in {RSM, SM, ASM} ==> r.Values == {identity}
    ensures role == RSM ==> r.Keys == {Rsm} && r[Rsm] == identity
    ensures role == SM ==> r.Keys == {Sm} && r[Sm] == identity
    ensures role == ASM ==> r.Keys == {DistName} && r[DistName] == identity
    ensures role == Salesman ==> r.Keys == {SalesmanNo} && r[SalesmanNo] == SalesmanId(identity)
  {
    match role
    case RSM => assert Rsm in map[Rsm := identity]; map[Rsm := identity]
    case SM => assert Sm in map[Sm := identity]; map[Sm := identity]
    case ASM => assert DistName in map[DistName := identity]; map[DistName := identity]
    case Salesman => assert SalesmanNo in map[SalesmanNo := SalesmanId(identity)]; map[SalesmanNo := SalesmanId(identity)]
    case _ => map[]
  }

  /** The job title shown: `DSF` for a salesman, the user's own otherwise. */
  function Title(role: Role, own: string): string {
    if role == Salesman then "DSF" else own
  }

  /** The session of an authenticated user. */
  function SessionOf(u: User, role: Role, identity: string): Session {
    Session(u.username, identity, u.role, Title(role, u.jobTitle), Rls(role, identity))
  }

  /** The demo user of the fallback password. */
  function DemoUser(role: Role, target: string, identity: string): User {
    User(target, identity, "", FallbackRole(role), RoleName(role))
  }

  /** The login decision, step by step as the form handler takes it: the
      maintenance account first, then the missing role and identity, then the
      account to check. Whoever gets in is named by the chosen identity and
      carries the row-level-security filters of the role. */
  function LoginDecision(role: Role, identity: string, password: string, users: seq<User>, data: seq<PlanRow>): (out: Outcome)
    ensures IsBackdoor(role, password) ==> out == LoggedIn(BackdoorSession)
    ensures out == Refused(MissingRole) <==> !IsBackdoor(role, password) && role == NoRole
    ensures out == Refused(MissingIdentity) <==> !IsBackdoor(role, password) && role != NoRole && role != Admin && identity == ""
    ensures out.LoggedIn? && !IsBackdoor(role, password) ==>
              && out.session.name == identity
              && out.session.rls == Rls(role, identity)
              && (role == Salesman ==> out.session.jobTitle == "DSF")
  {
    if IsBackdoor(role, password) then LoggedIn(BackdoorSession)
    else if role == NoRole then Refused(MissingRole)
    else if identity == "" && role != Admin then Refused(MissingIdentity)
    else
      match Target(role, identity, data)
      case None => Refused(DistributorNotFound)
      case Some(t) =>
        match Credential(users, t, password)
        case Some(j) => LoggedIn(SessionOf(users[j], role, identity))
        case None =>
          if password == DemoPassword && role != Staff then LoggedIn(SessionOf(DemoUser(role, t, identity), role, identity))
          else Refused(WrongPassword)
  }

  /** Past the first checks, the first stored user matching the account and the
      password wins; only without one does the demo password let anyone but
      Staff in, as a demo user named after the account. */
  lemma LoginAuthenticates(role: Role, identity: string, password: string, users: seq<User>, data: seq<PlanRow>)
    requires !IsBackdoor(role, password)
    requires LoginDecision(role, identity, password, users, data).LoggedIn?
    ensures Target(role, identity, data).Some?
    ensures var out := LoginDecision(role, identity, password, users, data);
            var t := Target(role, identity, data).value;
            match Credential(users, t, password)
            case Some(j) => out.session == SessionOf(users[j], role, identity)
            case None => && password == DemoPassword && role != Staff
                         && out.session == SessionOf(DemoUser(role, t, identity), role, identity)
  {
  }

  /** When a login gets in: the maintenance account, or, with a role and an
      identity (Admin may leave it empty) whose account resolves, a stored user
      matching the account and password or, outside Staff, the demo password. */
  lemma LoginSucceeds(role: Role, identity: string, password: string, users: seq<User>, data: seq<PlanRow>)
    ensures LoginDecision(role, identity, password, users, data).LoggedIn? <==>
              || IsBackdoor(role, password)
              || (&& role != NoRole && (identity != "" || role == Admin)
                  && Target(role, identity, data).Some?
                  && (|| Credential(users, Target(role, identity, data).value, password).Some?
                      || (password == DemoPassword && role != Staff)))
  {
  }

  /** A Staff login always goes through a stored user. */
  lemma StaffNeedsStoredUser(identity: string, password: string, users: seq<User>, data: seq<PlanRow>)
    requires LoginDecision(Staff, identity, password, users, data).LoggedIn?
    ensures Credential(users, identity, password).Some?
  {
  }

  /** The two late refusals: a salesman whose first row has no distributor, and a
      password that matches neither a stored user nor, outside Staff, the demo
      password. */
  lemma LoginRefusals(role: Role, identity: string, password: string, users: seq<User>, data: seq<PlanRow>)
    ensures LoginDecision(role, identity, password, users, data) == Refused(DistributorNotFound) <==>
              !IsBackdoor(role, password) && role == Salesman && identity != "" && Target(role, identity, data).None?
    ensures LoginDecision(role, identity, password, users, data) == Refused(WrongPassword) <==>
              && !IsBackdoor(role, password) && role != NoRole && (identity != "" || role == Admin)
              && Target(role, identity, data).Some?
              && Credential(users, Target(role, identity, data).value, password).None?
              && (password != DemoPassword || role == Staff)
  {
  }

  /** `handleLogin` in login mode: the same steps on local state, building the
      row-level-security context field by field. */
  method HandleLogin(role: Role, identity: string, password: string, users: seq<User>, data: seq<PlanRow>)
    returns (out: Outcome)
    ensures out == LoginDecision(role, identity, password, users, data)
  {
    if role == Admin && password == BackdoorPassword {
      return LoggedIn(BackdoorSession);
    }
    if role == NoRole {
      return Refused(MissingRole);
    }
    if identity == "" && role != Admin {
      return Refused(MissingIdentity);
    }
    var targetUsername := identity;
    if role == Salesman {
      var salesmanId := SalesmanId(identity);
      var salesmanRow := SalesmanRow(data, salesmanId);
      if salesmanRow.Some? && data[salesmanRow.value].distName != "" {
        targetUsername := data[salesmanRow.value].distName;
      } else {
        return Refused(DistributorNotFound);
      }
    }
    var validUser := Credential(users, targetUsername, password);
    var finalUser: Option<User> := None;
    if validUser.Some? {
      finalUser := Some(users[validUser.value]);
    } else if password == DemoPassword && role != Staff {
      finalUser := Some(DemoUser(role, targetUsername, identity));
    }
    if finalUser.Some? {
      var rlsContext: FilterSet := map[];
      if role == RSM {
        rlsContext := rlsContext[Rsm := identity];
      }
      if role == SM {
        rlsContext := rlsContext[Sm := identity];
      }
      if role == ASM {
        rlsContext := rlsContext[DistName := identity];
      }
      var displayJobTitle := finalUser.value.jobTitle;
      if role == Salesman {
        rlsContext := rlsContext[SalesmanNo := SalesmanId(identity)];
        displayJobTitle := "DSF";
      }
      out := LoggedIn(Session(finalUser.value.username, identity, finalUser.value.role, displayJobTitle, rlsContext));
    } else {
      out := Refused(WrongPassword);
    }
  }

  /** The dashboard a session opens: a salesman with a salesman number sees only
      their own rows, with the channel view and rankings hidden; a
      distributor sees one distributor with the rankings hidden; RSM, SM, Staff
      and Admin sessions see the full views. */
  lemma SessionViews(role: Role, identity: string, password: string, users: seq<User>, data: seq<PlanRow>)
    requires LoginDecision(role, identity, password, users, data).LoggedIn?
    ensures var rls := LoginDecision(role, identity, password, users, data).session.rls;
            && (role == Salesman && SalesmanId(identity) != "" ==> IsSalesman(rls) && IsRestrictedView(rls))
            && (role == ASM ==> !IsSalesman(rls) && IsRestrictedView(rls))
            && (role in {RSM, SM, Staff, Admin} ==> !IsRestrictedView(rls))
  {
    var out := LoginDecision(role, identity, password, users, data);
    if !IsBackdoor(role, password) {
      assert out.session.rls == Rls(role, identity);
    }
  }

  /** Whether a data row yields a salesman entry: number and name both present. */
  predicate Eligible(row: PlanRow) {
    row.salesmanNo != "" && row.salesmanName != ""
  }

  /** The entry `salesmanList` shows for a row: the number, " - ", then the name. */
  function SalesmanEntry(row: PlanRow): string {
    row.salesmanNo + " - " + row.salesmanName
  }

  /** Row `i` is the first eligible row of its salesman number. */
  predicate FirstOfSalesman(data: seq<PlanRow>, i: int) {
    && 0 <= i < |data| && Eligible(data[i])
    && forall j :: 0 <= j < i && Eligible(data[j]) ==> data[j].salesmanNo != data[i].salesmanNo
  }

  /** The entries of the first eligible rows among the first `n` rows, in row
      order. */
  function FirstEntries(data: seq<PlanRow>, n: nat): (r: seq<string>)
    requires n <= |data|
    ensures |r| <= n
  {
    if n == 0 then []
    else FirstEntries(data, n - 1) + (if FirstOfSalesman(data, n - 1) then [SalesmanEntry(data[n - 1])] else [])
  }

  /** An entry is listed iff it is the entry of a first eligible row. */
  lemma {:induction false} FirstEntriesMembers(data: seq<PlanRow>, n: nat, e: string)
    requires n <= |data|
    ensures e in FirstEntries(data, n) <==> exists j :: 0 <= j < n && FirstOfSalesman(data, j) && e == SalesmanEntry(data[j])
  {
    if n > 0 {
      FirstEntriesMembers(data, n - 1, e);
      if FirstOfSalesman(data, n - 1) && e == SalesmanEntry(data[n - 1]) {
        assert e in FirstEntries(data, n);
      }
    }
  }

  /** The numbers in the `Map` after the first `i` rows: those of the eligible rows. */
  ghost predicate Seen(data: seq<PlanRow>, i: nat, unique: map<string, string>)
    requires i <= |data|
  {
    forall id :: id in unique <==> exists j :: 0 <= j < i && Eligible(data[j]) && data[j].salesmanNo == id
  }

  /** The `Map` in insertion order: entry `k` is keyed by the number of row
      `firstIdx[k]`, a first eligible row before `i`, and holds its entry; the rows
      increase. */
  ghost predicate Listed(data: seq<PlanRow>, i: nat, order: seq<string>, unique: map<string, string>, firstIdx: seq<nat>) {
    && KeyOrder(order, unique)
    && |firstIdx| == |order|
    && (forall k :: 0 <= k < |order| ==> firstIdx[k] < i && FirstOfSalesman(data, firstIdx[k]))
    && (forall k :: 0 <= k < |order| ==> order[k] == data[firstIdx[k]].salesmanNo)
    && (forall k :: 0 <= k < |order| ==> unique[order[k]] == SalesmanEntry(data[firstIdx[k]]))
    && (forall k, l :: 0 <= k < l < |order| ==> firstIdx[k] < firstIdx[l])
  }

  /** Every first eligible row before `i` is listed. */
  ghost predicate Covered(data: seq<PlanRow>, i: nat, firstIdx: seq<nat>) {
    forall j :: 0 <= j < i && FirstOfSalesman(data, j) ==> j in firstIdx
  }

  /** The state of the `forEach` after the first `i` rows. */
  ghost predicate SalesmanAccs(data: seq<PlanRow>, i: nat, order: seq<string>, unique: map<string, string>, firstIdx: seq<nat>)
    requires i <= |data|
  {
    Seen(data, i, unique) && Listed(data, i, order, unique, firstIdx) && Covered(data, i, firstIdx)
  }

  /** The loop's test picks out exactly the first eligible rows. */
  lemma FirstIffUnseen(data: seq<PlanRow>, i: nat, unique: map<string, string>)
    requires i < |data| && Seen(data, i, unique)
    ensures FirstOfSalesman(data, i) <==> Eligible(data[i]) && data[i].salesmanNo !in unique
  {
    if Eligible(data[i]) && data[i].salesmanNo in unique {
      var j :| 0 <= j < i && Eligible(data[j]) && data[j].salesmanNo == data[i].salesmanNo;
      assert !FirstOfSalesman(data, i);
    }
  }

  lemma SeenStep(data: seq<PlanRow>, i: nat, unique: map<string, string>)
    requires i < |data| && Seen(data, i, unique)
    ensures Eligible(data[i]) ==> Seen(data, i + 1, unique[data[i].salesmanNo := SalesmanEntry(data[i])])
    ensures !Eligible(data[i]) ==> Seen(data, i + 1, unique)
  {
    var no := data[i].salesmanNo;
    if Eligible(data[i]) {
      var unique' := unique[no := SalesmanEntry(data[i])];
      forall id ensures id in unique' <==> exists j :: 0 <= j < i + 1 && Eligible(data[j]) && data[j].salesmanNo == id {
        if id == no {
          assert Eligible(data[i]) && data[i].salesmanNo == id;
        }
      }
    }
  }

  lemma ListedStep(data: seq<PlanRow>, i: nat, order: seq<string>, unique: map<string, string>, firstIdx: seq<nat>)
    requires i < |data| && Listed(data, i, order, unique, firstIdx)
    requires FirstOfSalesman(data, i) && data[i].salesmanNo !in unique
    ensures Listed(data, i + 1, order + [data[i].salesmanNo], unique[data[i].salesmanNo := SalesmanEntry(data[i])], firstIdx + [i])
  {
    var row := data[i];
    var order', unique', idx' := order + [row.salesmanNo], unique[row.salesmanNo := SalesmanEntry(row)], firstIdx + [i];
    assert NoDuplicates(order');
    forall k | 0 <= k < |order'| ensures unique'[order'[k]] == SalesmanEntry(data[idx'[k]]) {
      if k < |order| {
        assert order[k] in unique;
      }
    }
  }

  lemma SalesmanStep(data: seq<PlanRow>, i: nat, order: seq<string>, unique: map<string, string>, firstIdx: seq<nat>)
    requires i < |data| && SalesmanAccs(data, i, order, unique, firstIdx)
    ensures Eligible(data[i]) && data[i].salesmanNo !in unique ==>
              SalesmanAccs(data, i + 1, order + [data[i].salesmanNo],
                           unique[data[i].salesmanNo := SalesmanEntry(data[i])], firstIdx + [i])
    ensures !(Eligible(data[i]) && data[i].salesmanNo !in unique) ==>
              SalesmanAccs(data, i + 1, order, unique, firstIdx)
  {
    FirstIffUnseen(data, i, unique);
    SeenStep(data, i, unique);
    if Eligible(data[i]) && data[i].salesmanNo !in unique {
      ListedStep(data, i, order, unique, firstIdx);
    } else if Eligible(data[i]) {
      assert unique[data[i].salesmanNo := SalesmanEntry(data[i])].Keys == unique.Keys;
    }
  }

  /** The values of the `Map` after the first `i` rows are the reference entries. */
  lemma EntriesStep(data: seq<PlanRow>, i: nat, order: seq<string>, unique: map<string, string>)
    requires i < |data| && Seen(data, i, unique) && KeyOrder(order, unique)
    requires Values(order, unique) == FirstEntries(data, i)
    ensures Eligible(data[i]) && data[i].salesmanNo !in unique ==>
              Values(order + [data[i].salesmanNo], unique[data[i].salesmanNo := SalesmanEntry(data[i])]) == FirstEntries(data, i + 1)
    ensures !(Eligible(data[i]) && data[i].salesmanNo !in unique) ==> Values(order, unique) == FirstEntries(data, i + 1)
  {
    FirstIffUnseen(data, i, unique);
    if Eligible(data[i]) && data[i].salesmanNo !in unique {
      ValuesInsert(order, unique, data[i].salesmanNo, SalesmanEntry(data[i]));
    }
  }

  /** `salesmanList`: one "number - name" entry per salesman number that has a
      row with both number and name, taken from the first such row, in the order
      those rows appear; `firstIdx` names the rows. */
  method SalesmanList(data: seq<PlanRow>) returns (list: seq<string>, ghost firstIdx: seq<nat>)
    ensures list == FirstEntries(data, |data|)
    ensures |list| == |firstIdx|
    ensures forall k :: 0 <= k < |list| ==> FirstOfSalesman(data, firstIdx[k]) && list[k] == SalesmanEntry(data[firstIdx[k]])
    ensures forall k, l :: 0 <= k < l < |list| ==> firstIdx[k] < firstIdx[l]
    ensures forall j :: FirstOfSalesman(data, j) ==> j in firstIdx
  {
    var order, unique;
    order, unique, firstIdx := CollectSalesmen(data);
    list := Values(order, unique);
    ListOfAccs(data, order, unique, firstIdx);
  }

  /** The state of the `forEach` after the first `i` rows, with the values of the
      `Map` equal to the reference entries. */
  ghost predicate Collected(data: seq<PlanRow>, i: nat, order: seq<string>, unique: map<string, string>, firstIdx: seq<nat>)
    requires i <= |data|
  {
    SalesmanAccs(data, i, order, unique, firstIdx) && Values(order, unique) == FirstEntries(data, i)
  }

  lemma CollectStart(data: seq<PlanRow>)
    ensures Collected(data, 0, [], map[], [])
  {
  }

  lemma CollectStep(data: seq<PlanRow>, i: nat, order: seq<string>, unique: map<string, string>, firstIdx: seq<nat>)
    requires i < |data| && Collected(data, i, order, unique, firstIdx)
    ensures Eligible(data[i]) && data[i].salesmanNo !in unique ==>
              Collected(data, i + 1, order + [data[i].salesmanNo], unique[data[i].salesmanNo := SalesmanEntry(data[i])], firstIdx + [i])
    ensures !(Eligible(data[i]) && data[i].salesmanNo !in unique) ==> Collected(data, i + 1, order, unique, firstIdx)
  {
    SalesmanStep(data, i, order, unique, firstIdx);
    EntriesStep(data, i, order, unique);
  }

  /** The `forEach` of `salesmanList` over all rows: the `Map` from each salesman
      number to the entry of its first row with number and name, kept in the
      order those rows appear. */
  method CollectSalesmen(data: seq<PlanRow>) returns (order: seq<string>, unique: map<string, string>, ghost firstIdx: seq<nat>)
    ensures SalesmanAccs(data, |data|, order, unique, firstIdx)
    ensures Values(order, unique) == FirstEntries(data, |data|)
  {
    unique := map[];
    order := [];
    firstIdx := [];
    CollectStart(data);
    var i := 0;
    while i < |data|
      invariant i <= |data|
      invariant Collected(data, i, order, unique, firstIdx)
    {
      CollectStep(data, i, order, unique, firstIdx);
      var row := data[i];
      if row.salesmanNo != "" && row.salesmanName != "" && row.salesmanNo !in unique {
        unique := unique[row.salesmanNo := SalesmanEntry(row)];
        order := order + [row.salesmanNo];
        firstIdx := firstIdx + [i];
      }
      i := i + 1;
    }
  }

  /** What the finished `forEach` gives once read through `unique.values()`. */
  lemma ListOfAccs(data: seq<PlanRow>, order: seq<string>, unique: map<string, string>, firstIdx: seq<nat>)
    requires SalesmanAccs(data, |data|, order, unique, firstIdx)
    ensures var list := Values(order, unique);
            && |list| == |firstIdx|
            && (forall k :: 0 <= k < |list| ==> FirstOfSalesman(data, firstIdx[k]) && list[k] == SalesmanEntry(data[firstIdx[k]]))
            && (forall k, l :: 0 <= k < l < |list| ==> firstIdx[k] < firstIdx[l])
            && (forall j :: FirstOfSalesman(data, j) ==> j in firstIdx)
  {
  }

  /** Every salesman with an eligible row gets an entry: the salesman's first
      eligible row is among the entries' rows. */
  lemma {:induction false} EveryEligibleHasFirst(data: seq<PlanRow>, i: nat)
    requires i < |data| && Eligible(data[i])
    ensures exists j :: 0 <= j <= i && FirstOfSalesman(data, j) && data[j].salesmanNo == data[i].salesmanNo
    decreases i
  {
    if !FirstOfSalesman(data, i) {
      var j :| 0 <= j < i && Eligible(data[j]) && data[j].salesmanNo == data[i].salesmanNo;
      EveryEligibleHasFirst(data, j);
    }
  }

  /** An entry of the list read back by the login: when the salesman number has
      no space, the number before " - " is recovered. */
  lemma SalesmanIdOfEntry(row: PlanRow)
    requires forall c :: c in row.salesmanNo ==> c != ' '
    ensures SalesmanId(SalesmanEntry(row)) == Trim(row.salesmanNo)
  {
    var e, id := SalesmanEntry(row), row.salesmanNo;
    assert e[|id|..|id| + 3] == " - ";
    forall i | 0 <= i < |id| ensures !OccursAt(e, " - ", i) {
      assert e[i] == id[i] && id[i] in id;
    }
    BeforeFirstAt(e, " - ", |id|);
    assert e[..|id|] == id;
  }

  /** Why the read-back asks for a number without spaces: a number that merely
      lacks " - " can still end in " -", and then the separator is found inside
      the number and the number read back is cut short. */
  lemma EntryReadBackOverlap()
    ensures var row := PlanRow("a -", "n", "", "", "", "", "", "", ZeroCells);
            && (forall i :: !OccursAt(row.salesmanNo, " - ", i))
            && SalesmanId(SalesmanEntry(row)) == "a" != Trim(row.salesmanNo)
  {
    var row := PlanRow("a -", "n", "", "", "", "", "", "", ZeroCells);
    var e := SalesmanEntry(row);
    assert e == "a - - n";
    assert e[1..4] == " - ";
    assert e[0..3] != " - " by { assert e[0..3][0] == 'a'; }
    assert !OccursAt(e, " - ", 0);
    BeforeFirstAt(e, " - ", 1);
    assert !IsSpace('a') && !IsSpace('-');
    assert DropFront("a", IsSpace) == "a" && DropBack("a", IsSpace) == "a";
    assert DropFront("a -", IsSpace) == "a -" && DropBack("a -", IsSpace) == "a -";
  }

  /** The user's job title is `Staff`. */
  predicate IsStaff(u: User) {
    u.jobTitle == "Staff"
  }

  /** `staffList`: the display names of the users whose job title is `Staff`,
      one per such user, in the users' order. */
  function StaffList(users: seq<User>): (r: seq<string>)
    ensures |r| == |Filter(users, IsStaff)|
    ensures forall i :: 0 <= i < |r| ==> r[i] == DisplayName(Filter(users, IsStaff)[i])
  {
    var staff := Filter(users, IsStaff);
    seq(|staff|, i requires 0 <= i < |staff| => DisplayName(staff[i]))
  }

  /** A name is in the staff list exactly when some user titled `Staff` shows
      that name, and the list is no longer than the users. */
  lemma StaffListMembers(users: seq<User>)
    ensures |StaffList(users)| <= |users|
    ensures forall n :: n in StaffList(users) <==> exists i :: 0 <= i < |users| && IsStaff(users[i]) && DisplayName(users[i]) == n
  {
    var staff := Filter(users, IsStaff);
    forall n ensures n in StaffList(users) <==> exists i :: 0 <= i < |users| && IsStaff(users[i]) && DisplayName(users[i]) == n {
      if n in StaffList(users) {
        var k :| 0 <= k < |staff| && DisplayName(staff[k]) == n;
        assert staff[k] in staff;
        var i :| 0 <= i < |users| && users[i] == staff[k];
      }
      if i :| 0 <= i < |users| && IsStaff(users[i]) && DisplayName(users[i]) == n {
        assert users[i] in users;
        var k :| 0 <= k < |staff| && staff[k] == users[i];
        assert StaffList(users)[k] == n;
      }
    }
  }

  /** `asmList`: the distinct distributors of the data. */
  function AsmList(data: seq<PlanRow>): (r: seq<string>)
    ensures NoDuplicates(r)
    ensures forall d :: d in r <==> exists row :: row in data && row.distName == d
  {
    UniqueValues(data, DistName)
  }

  /** The list searched when a term is typed: distributors for ASM, staff for
      Staff, salesmen for every other role. */
  function SearchSource(role: Role, asm: seq<string>, salesmen: seq<string>, staff: seq<string>): seq<string> {
    if role == ASM then asm else if role == Staff then staff else salesmen
  }

  /** The entry is non-empty and contains the term, ignoring the case of A-Z. */
  predicate SearchHit(s: string, term: string) {
    s != "" && Contains(Lower(s), Lower(term))
  }

  /** `filteredList`: without a term, the whole list of the role (ASM, salesman or
      Staff) or nothing for the other roles; with a term, exactly the non-empty
      entries of the searched list that contain it case-insensitively, in order. */
  function FilteredList(role: Role, term: string, asm: seq<string>, salesmen: seq<string>, staff: seq<string>): (r: seq<string>)
    ensures term == "" && role == ASM ==> r == asm
    ensures term == "" && role == Salesman ==> r == salesmen
    ensures term == "" && role == Staff ==> r == staff
    ensures term == "" && role !in {ASM, Salesman, Staff} ==> r == []
    ensures term != "" ==> IsSubsequence(r, SearchSource(role, asm, salesmen, staff))
    ensures term != "" ==> forall s :: s in r <==> s in SearchSource(role, asm, salesmen, staff) && SearchHit(s, term)
    ensures term != "" ==> forall s :: multiset(r)[s] == if SearchHit(s, term) then multiset(SearchSource(role, asm, salesmen, staff))[s] else 0
  {
    if term == "" then
      if role == ASM then asm
      else if role == Salesman then salesmen
      else if role == Staff then staff
      else []
    else
      Filter(SearchSource(role, asm, salesmen, staff), (s: string) => SearchHit(s, term))
  }

  /** The search ignores the case of the term. */
  lemma SearchIgnoresCase(role: Role, term: string, asm: seq<string>, salesmen: seq<string>, staff: seq<string>)
    ensures FilteredList(role, Lower(term), asm, salesmen, staff) == FilteredList(role, term, asm, salesmen, staff)
  {
    LowerIdempotent(term);
    assert |Lower(term)| == |term|;
    FilterSame(SearchSource(role, asm, salesmen, staff), (s: string) => SearchHit(s, Lower(term)), (s: string) => SearchHit(s, term));
  }

  /** Typing more narrows the results: every hit for a term that contains an
      earlier term was a hit for the earlier one. */
  lemma SearchNarrows(role: Role, shorter: string, longer: string, asm: seq<string>, salesmen: seq<string>, staff: seq<string>)
    requires shorter != "" && Contains(Lower(longer), Lower(shorter))
    ensures forall s :: s in FilteredList(role, longer, asm, salesmen, staff) ==> s in FilteredList(role, shorter, asm, salesmen, staff)
  {
    assert longer != "" by {
      assert |Lower(longer)| >= |Lower(shorter)| == |shorter| > 0;
    }
    forall s | s in FilteredList(role, longer, asm, salesmen, staff)
      ensures s in FilteredList(role, shorter, asm, salesmen, staff)
    {
      ContainsTransitive(Lower(s), Lower(longer), Lower(shorter));
    }
  }
}
