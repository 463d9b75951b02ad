/** The user service: validation, the field mask of UpdateUser, and the parameterised UPDATE it is
    compiled to. Each request touches the table with one statement, so concurrent requests are
    sequences of statements. */
module UserService {
  import opened OrderModel
  import opened Text

  datatype UserRow = UserRow(name: string, email: string, createdAt: nat, updatedAt: nat)

  /** The rows of `users`, by id. */
  type Users = map<string, UserRow>

  datatype Code = InvalidArgument | AlreadyExists | NoSuchUser | Internal
  datatype UserReply = Refused(code: Code) | User(id: string, row: UserRow) | Deleted

  // ---------------------------------------------------------------- statements

  datatype Column = Name | Email

  /** One assignment of an UPDATE: a column to a numbered argument, or updated_at to NOW(). */
  datatype Assignment = ToArgument(column: Column, n: nat) | ToNow

  /** `UPDATE users SET sets WHERE id = $idArg RETURNING ...`. */
  datatype Statement = Statement(sets: seq<Assignment>, idArg: nat)

  datatype DbReply = DbError | Duplicate | NoRow | Returned(id: string, row: UserRow)

  /** `$n` counts from one. */
  predicate IsArgument(args: seq<string>, n: nat) { 1 <= n <= |args| }

  predicate WellNumbered(q: Statement, args: seq<string>) {
    && IsArgument(args, q.idArg)
    && forall i :: 0 <= i < |q.sets| && q.sets[i].ToArgument? ==> IsArgument(args, q.sets[i].n)
  }

  function Assign(row: UserRow, sets: seq<Assignment>, args: seq<string>, now: nat): UserRow
    requires forall i :: 0 <= i < |sets| && sets[i].ToArgument? ==> IsArgument(args, sets[i].n)
  {
    if sets == [] then row
    else
      var rest, last := Assign(row, sets[..|sets| - 1], args, now), sets[|sets| - 1];
      assert last.ToArgument? ==> IsArgument(args, last.n);
      match last
      case ToNow => rest.(updatedAt := now)
      case ToArgument(Name, n) => rest.(name := args[n - 1])
      case ToArgument(Email, n) => rest.(email := args[n - 1])
  }

  /** VARCHAR(100) and VARCHAR(255). */
  predicate FitsUser(row: UserRow) { |row.name| <= 100 && |row.email| <= 255 }

  /** Another row has the email already: the UNIQUE constraint. */
  predicate EmailTaken(users: Users, id: string, email: string) {
    exists other :: other in users && other != id && users[other].email == email
  }

  /** What the constraints of the table make of a new version of a row. */
  function Judge(users: Users, id: string, row: UserRow): DbReply {
    if !FitsUser(row) then DbError
    else if EmailTaken(users, id, row.email) then Duplicate
    else Returned(id, row)
  }

  function Evaluate(q: Statement, args: seq<string>, users: Users, now: nat): DbReply {
    if !WellNumbered(q, args) then DbError
    else if args[q.idArg - 1] !in users then NoRow
    else Judge(users, args[q.idArg - 1], Assign(users[args[q.idArg - 1]], q.sets, args, now))
  }

  // ---------------------------------------------------------------- what an update means

  /** The row with the masked fields replaced and all other fields kept. */
  function Masked(row: UserRow, name: Option<string>, email: Option<string>, now: nat): UserRow {
    UserRow(if name.Some? then name.value else row.name,
            if email.Some? then email.value else row.email,
            row.createdAt,
            if name.Some? || email.Some? then now else row.updatedAt)
  }

  /** The masked update of one user, judged by the table. An empty mask only reads. */
  function UpdateMeaning(users: Users, id: string, name: Option<string>, email: Option<string>, now: nat): DbReply {
    if id !in users then NoRow
    else if name.None? && email.None? then Returned(id, users[id])
    else Judge(users, id, Masked(users[id], name, email, now))
  }

  /** The table after a statement with that reply, and what its caller sees of the reply. */
  function TableAfter(users: Users, reply: DbReply, outcome: Outcome): Users {
    if reply.Returned? && !outcome.NotApplied? then users[reply.id := reply.row] else users
  }

  function Seen(reply: DbReply, outcome: Outcome): DbReply { if outcome.Applied? then reply else DbError }

  /** The email part of the validations. */
  predicate ValidEmail(s: string) { s != "" && '@' in s }

  // ---------------------------------------------------------------- the mask

  datatype Profile = Profile(name: string, email: string)

  predicate ValidPath(path: string, user: Profile) {
    || (path == "name" && TrimSpace(user.name) != "")
    || (path == "email" && ValidEmail(TrimSpace(user.email)))
  }

  function MaskedName(mask: seq<string>, user: Profile): Option<string> {
    if "name" in mask then Some(TrimSpace(user.name)) else None
  }

  function MaskedEmail(mask: seq<string>, user: Profile): Option<string> {
    if "email" in mask then Some(TrimSpace(user.email)) else None
  }

  predicate ValidUpdate(id: string, mask: seq<string>, user: Profile) {
    id != "" && mask != [] && forall path :: path in mask ==> ValidPath(path, user)
  }

  function ToReply(reply: DbReply): UserReply {
    match reply
    case DbError => Refused(Internal)
    case Duplicate => Refused(AlreadyExists)
    case NoRow => Refused(NoSuchUser)
    case Returned(id, row) => User(id, row)
  }

  predicate ValidCreate(name: string, email: string) {
    TrimSpace(name) != "" && ValidEmail(TrimSpace(email))
  }

  /** INSERT with a generated id. */
  function CreateMeaning(users: Users, id: string, name: string, email: string, now: nat): DbReply {
    var row := UserRow(name, email, now, now);
    if FitsUser(row) && id in users then Duplicate else Judge(users, id, row)
  }

  // ---------------------------------------------------------------- field by field

  /** The texts fit their columns. */
  predicate Fits(name: string, email: string) { |name| <= 100 && |email| <= 255 }

  /** Somebody else has the email. */
  ghost predicate Taken(users: Users, id: string, email: string) {
    exists other :: other in users && other != id && users[other].email == email
  }

  function Given(given: bool, value: string, present: string): string { if given then value else present }

  /** `after` is `before` with the given name, the given email, or both. */
  predicate OnlyGiven(before: UserRow, after: UserRow, nameSet: bool, name: string, emailSet: bool, email: string,
                      now: nat)
  {
    && after.name == Given(nameSet, name, before.name) && after.email == Given(emailSet, email, before.email)
    && after.createdAt == before.createdAt
    && after.updatedAt == if nameSet || emailSet then now else before.updatedAt
  }

  /** The given values can be stored for `id`; giving none stores nothing. */
  ghost predicate Acceptable(users: Users, id: string, nameSet: bool, name: string, emailSet: bool, email: string)
    requires id in users
  {
    nameSet || emailSet ==>
      && Fits(Given(nameSet, name, users[id].name), Given(emailSet, email, users[id].email))
      && !Taken(users, id, Given(emailSet, email, users[id].email))
  }

  /** What an update means, field by field. */
  lemma MeaningInFields(users: Users, id: string, nameSet: bool, name: string, emailSet: bool, email: string, now: nat)
    ensures var m := UpdateMeaning(users, id, if nameSet then Some(name) else None,
                                   if emailSet then Some(email) else None, now);
      && (m.NoRow? <==> id !in users)
      && (m.Returned? <==> id in users && Acceptable(users, id, nameSet, name, emailSet, email))
      && (m.Returned? ==> m.id == id && OnlyGiven(users[id], m.row, nameSet, name, emailSet, email, now))
      && (m.Returned? && !nameSet && !emailSet ==> m.row == users[id])
      && (m.Duplicate? <==>
            && id in users && (nameSet || emailSet)
            && Fits(Given(nameSet, name, users[id].name), Given(emailSet, email, users[id].email))
            && Taken(users, id, Given(emailSet, email, users[id].email)))
  {}

  /** The validations of UpdateUser. */
  lemma ValidUpdateMeans(id: string, mask: seq<string>, user: Profile)
    ensures ValidUpdate(id, mask, user) <==>
      && id != "" && mask != []
      && (forall path :: path in mask ==> path == "name" || path == "email")
      && ("name" in mask ==> TrimSpace(user.name) != "")
      && ("email" in mask ==> '@' in TrimSpace(user.email))
    ensures ValidUpdate(id, mask, user) ==> "name" in mask || "email" in mask
  {
    assert "name" != "email" by { NamesDiffer(); }
    if mask != [] { assert mask[0] in mask; }
    if ValidUpdate(id, mask, user) {
      assert "name" in mask ==> ValidPath("name", user);
      assert "email" in mask ==> ValidPath("email", user);
    }
  }

  // ---------------------------------------------------------------- the service

  class UserRepository {
    var users: Users

    constructor ()
      ensures users == map[]
    {
      users := map[];
    }

    method Create(name: string, email: string, id: string, now: nat, outcome: Outcome) returns (reply: DbReply)
      modifies this
      ensures reply == Seen(CreateMeaning(old(users), id, name, email, now), outcome)
      ensures users == TableAfter(old(users), CreateMeaning(old(users), id, name, email, now), outcome)
      ensures users == old(users) ||
              (!outcome.NotApplied? && id !in old(users) && users == old(users)[id := UserRow(name, email, now, now)])
      ensures reply.Returned? <==>
              outcome.Applied? && id !in old(users) && Fits(name, email) && !Taken(old(users), id, email)
      ensures reply.Returned? ==>
              reply == Returned(id, UserRow(name, email, now, now)) && id in users && users[id] == reply.row
      ensures reply.Duplicate? <==>
              outcome.Applied? && Fits(name, email) && (id in old(users) || Taken(old(users), id, email))
      ensures !reply.NoRow?
    {
      var answer := CreateMeaning(users, id, name, email, now);
      if answer.Returned? && !outcome.NotApplied? {
        users := users[id := answer.row];
      }
      reply := if outcome.Applied? then answer else DbError;
    }

    /** The statement grows clause by clause, and its last argument is the id. */
    method Update(id: string, name: string, email: string, nameSet: bool, emailSet: bool, now: nat, outcome: Outcome)
      returns (reply: DbReply)
      modifies this
      ensures var meaning := UpdateMeaning(old(users), id, if nameSet then Some(name) else None,
                                           if emailSet then Some(email) else None, now);
              reply == Seen(meaning, outcome) && users == TableAfter(old(users), meaning, outcome)
      ensures users == old(users) ||
        (!outcome.NotApplied? && id in old(users) && id in users && users == old(users)[id := users[id]]
         && OnlyGiven(old(users)[id], users[id], nameSet, name, emailSet, email, now))
      ensures reply.NoRow? <==> outcome.Applied? && id !in old(users)
      ensures reply.Returned? <==>
        outcome.Applied? && id in old(users) && Acceptable(old(users), id, nameSet, name, emailSet, email)
      ensures reply.Returned? ==>
        && id in users && reply == Returned(id, users[id])
        && OnlyGiven(old(users)[id], users[id], nameSet, name, emailSet, email, now)
      ensures reply.Duplicate? <==>
        && outcome.Applied? && id in old(users) && (nameSet || emailSet)
        && Fits(Given(nameSet, name, old(users)[id].name), Given(emailSet, email, old(users)[id].email))
        && Taken(old(users), id, Given(emailSet, email, old(users)[id].email))
    {
      MeaningInFields(users, id, nameSet, name, emailSet, email, now);
      var sets: seq<Assignment>, args: seq<string>, argIdx := [], [], 1;
      if nameSet {
        sets := sets + [ToArgument(Name, argIdx)];
        args := args + [name];
        argIdx := argIdx + 1;
      }
      if emailSet {
        sets := sets + [ToArgument(Email, argIdx)];
        args := args + [email];
        argIdx := argIdx + 1;
      }
      if sets == [] {
        if !outcome.Applied? { return DbError; }
        return if id in users then Returned(id, users[id]) else NoRow;
      }
      sets := sets + [ToNow];
      args := args + [id];
      var query := Statement(sets, argIdx);

      StatementMeansUpdate(query, args, users, id, name, email, nameSet, emailSet, now);
      var answer := Evaluate(query, args, users, now);
      if answer.Returned? && !outcome.NotApplied? {
        users := users[answer.id := answer.row];
      }
      reply := if outcome.Applied? then answer else DbError;
    }

    method Delete(id: string, outcome: Outcome) returns (found: bool, failed: bool)
      modifies this
      ensures users == if outcome.NotApplied? then old(users) else old(users) - {id}
      ensures failed == !outcome.Applied? && (found <==> !failed && id in old(users))
    {
      found, failed := id in users, false;
      if !outcome.NotApplied? {
        users := users - {id};
      }
      if !outcome.Applied? { return false, true; }
    }
  }

  /** The statement with these clauses and arguments. */
  ghost predicate Compiled(q: Statement, args: seq<string>, id: string, name: string, email: string,
                           nameSet: bool, emailSet: bool) {
    if nameSet && emailSet then
      q == Statement([ToArgument(Name, 1), ToArgument(Email, 2), ToNow], 3) && args == [name, email, id]
    else if nameSet then q == Statement([ToArgument(Name, 1), ToNow], 2) && args == [name, id]
    else q == Statement([ToArgument(Email, 1), ToNow], 2) && args == [email, id]
  }

  lemma AssignOne(row: UserRow, a: Assignment, args: seq<string>, now: nat)
    requires a.ToArgument? ==> IsArgument(args, a.n)
    ensures Assign(row, [a], args, now) == match a
      case ToNow => row.(updatedAt := now)
      case ToArgument(Name, n) => row.(name := args[n - 1])
      case ToArgument(Email, n) => row.(email := args[n - 1])
  {
    assert [a][..0] == [];
  }

  lemma AssignAppends(row: UserRow, sets: seq<Assignment>, a: Assignment, args: seq<string>, now: nat)
    requires forall i :: 0 <= i < |sets| && sets[i].ToArgument? ==> IsArgument(args, sets[i].n)
    requires a.ToArgument? ==> IsArgument(args, a.n)
    ensures Assign(row, sets + [a], args, now) == Assign(Assign(row, sets, args, now), [a], args, now)
  {
    assert (sets + [a])[..|sets|] == sets;
    AssignOne(Assign(row, sets, args, now), a, args, now);
  }

  lemma AssignBoth(row: UserRow, args: seq<string>, now: nat)
    requires |args| == 3
    ensures Assign(row, [ToArgument(Name, 1), ToArgument(Email, 2), ToNow], args, now)
         == UserRow(args[0], args[1], row.createdAt, now)
  {
    var one, two := [ToArgument(Name, 1)], [ToArgument(Name, 1), ToArgument(Email, 2)];
    AssignOne(row, ToArgument(Name, 1), args, now);
    AssignAppends(row, one, ToArgument(Email, 2), args, now);
    AssignOne(row.(name := args[0]), ToArgument(Email, 2), args, now);
    AssignAppends(row, two, ToNow, args, now);
    AssignOne(row.(name := args[0], email := args[1]), ToNow, args, now);
    assert one + [ToArgument(Email, 2)] == two;
    assert two + [ToNow] == [ToArgument(Name, 1), ToArgument(Email, 2), ToNow];
  }

  lemma AssignSingle(row: UserRow, column: Column, args: seq<string>, now: nat)
    requires |args| == 2
    ensures Assign(row, [ToArgument(column, 1), ToNow], args, now)
         == if column == Name then row.(name := args[0], updatedAt := now) else row.(email := args[0], updatedAt := now)
  {
    AssignOne(row, ToArgument(column, 1), args, now);
    AssignAppends(row, [ToArgument(column, 1)], ToNow, args, now);
    AssignOne(Assign(row, [ToArgument(column, 1)], args, now), ToNow, args, now);
    assert [ToArgument(column, 1)] + [ToNow] == [ToArgument(column, 1), ToNow];
  }

  /** The numbered placeholders evaluate to exactly the masked update of the given user. */
  lemma StatementMeansUpdate(q: Statement, args: seq<string>, users: Users, id: string, name: string,
                             email: string, nameSet: bool, emailSet: bool, now: nat)
    requires nameSet || emailSet
    requires Compiled(q, args, id, name, email, nameSet, emailSet)
    ensures WellNumbered(q, args)
    ensures Evaluate(q, args, users, now)
         == UpdateMeaning(users, id, if nameSet then Some(name) else None, if emailSet then Some(email) else None, now)
  {
    if id in users {
      if nameSet && emailSet {
        AssignBoth(users[id], args, now);
      } else {
        AssignSingle(users[id], if nameSet then Name else Email, args, now);
      }
    }
  }

  class UserServiceServer {
    const repo: UserRepository

    constructor (repo: UserRepository)
      ensures this.repo == repo
    {
      this.repo := repo;
    }

    method CreateUser(reqName: string, reqEmail: string, id: string, now: nat, outcome: Outcome)
      returns (r: UserReply)
      modifies repo
      ensures repo.users == Serve(old(repo.users), CreateReq(reqName, reqEmail, id), now, outcome)
      ensures !ValidCreate(reqName, reqEmail) ==> repo.users == old(repo.users) && r == Refused(InvalidArgument)
      ensures ValidCreate(reqName, reqEmail) ==>
        var meaning := CreateMeaning(old(repo.users), id, TrimSpace(reqName), TrimSpace(reqEmail), now);
        repo.users == TableAfter(old(repo.users), meaning, outcome) && r == ToReply(Seen(meaning, outcome))
      ensures r == Refused(InvalidArgument) <==>
        TrimSpace(reqName) == "" || TrimSpace(reqEmail) == "" || '@' !in TrimSpace(reqEmail)
      ensures r.User? <==>
        && TrimSpace(reqName) != "" && '@' in TrimSpace(reqEmail)
        && outcome.Applied? && id !in old(repo.users)
        && Fits(TrimSpace(reqName), TrimSpace(reqEmail)) && !Taken(old(repo.users), id, TrimSpace(reqEmail))
      ensures r.User? ==>
        && r == User(id, UserRow(TrimSpace(reqName), TrimSpace(reqEmail), now, now))
        && repo.users == old(repo.users)[id := r.row]
      ensures r == Refused(AlreadyExists) <==>
        && TrimSpace(reqName) != "" && '@' in TrimSpace(reqEmail)
        && outcome.Applied? && Fits(TrimSpace(reqName), TrimSpace(reqEmail))
        && (id in old(repo.users) || Taken(old(repo.users), id, TrimSpace(reqEmail)))
      ensures r.User? || (r.Refused? && r.code != NoSuchUser)
    {
      var name, email := TrimSpace(reqName), TrimSpace(reqEmail);
      if name == "" { return Refused(InvalidArgument); }
      if email == "" || '@' !in email { return Refused(InvalidArgument); }
      var reply := repo.Create(name, email, id, now, outcome);
      r := ToReply(reply);
    }

    /** A missing user message reads as empty fields, a missing mask as an empty one. A request is
        refused without touching the table, or runs the masked update. */
    method UpdateUser(id: string, mask: seq<string>, user: Profile, now: nat, outcome: Outcome)
      returns (r: UserReply)
      modifies repo
      ensures repo.users == Serve(old(repo.users), UpdateReq(id, mask, user), now, outcome)
      ensures !ValidUpdate(id, mask, user) ==> repo.users == old(repo.users) && r == Refused(InvalidArgument)
      ensures ValidUpdate(id, mask, user) ==>
        var meaning := UpdateMeaning(old(repo.users), id, MaskedName(mask, user), MaskedEmail(mask, user), now);
        repo.users == TableAfter(old(repo.users), meaning, outcome) && r == ToReply(Seen(meaning, outcome))
      ensures r == Refused(InvalidArgument) <==>
        || id == "" || mask == []
        || !(forall path :: path in mask ==> path == "name" || path == "email")
        || ("name" in mask && TrimSpace(user.name) == "")
        || ("email" in mask && '@' !in TrimSpace(user.email))
      ensures r == Refused(NoSuchUser) <==>
        r != Refused(InvalidArgument) && outcome.Applied? && id !in old(repo.users)
      ensures r.User? <==>
        && r != Refused(InvalidArgument) && outcome.Applied? && id in old(repo.users)
        && Acceptable(old(repo.users), id, "name" in mask, TrimSpace(user.name), "email" in mask, TrimSpace(user.email))
      ensures r.User? ==>
        && id in repo.users && r == User(id, repo.users[id])
        && repo.users == old(repo.users)[id := repo.users[id]]
        && OnlyGiven(old(repo.users)[id], repo.users[id], "name" in mask, TrimSpace(user.name),
                     "email" in mask, TrimSpace(user.email), now)
        && repo.users[id].updatedAt == now
      ensures r == Refused(AlreadyExists) <==>
        && r != Refused(InvalidArgument) && outcome.Applied? && id in old(repo.users)
        && Fits(Given("name" in mask, TrimSpace(user.name), old(repo.users)[id].name),
                Given("email" in mask, TrimSpace(user.email), old(repo.users)[id].email))
        && Taken(old(repo.users), id, Given("email" in mask, TrimSpace(user.email), old(repo.users)[id].email))
    {
      ValidUpdateMeans(id, mask, user);
      MeaningInFields(repo.users, id, "name" in mask, TrimSpace(user.name),
                      "email" in mask, TrimSpace(user.email), now);
      if id == "" { return Refused(InvalidArgument); }
      if |mask| == 0 { return Refused(InvalidArgument); }
      var name, email := "", "";
      var nameSet, emailSet := false, false;
      for i := 0 to |mask|
        invariant forall path :: path in mask[..i] ==> ValidPath(path, user)
        invariant nameSet <==> "name" in mask[..i]
        invariant emailSet <==> "email" in mask[..i]
        invariant nameSet ==> name == TrimSpace(user.name)
        invariant emailSet ==> email == TrimSpace(user.email)
      {
        var path := mask[i];
        assert mask[..i + 1] == mask[..i] + [path];
        assert path in mask;
        if path == "name" {
          name := TrimSpace(user.name);
          if name == "" { assert path != "email"; return Refused(InvalidArgument); }
          nameSet := true;
        } else if path == "email" {
          email := TrimSpace(user.email);
          if email == "" || '@' !in email { return Refused(InvalidArgument); }
          emailSet := true;
        } else {
          return Refused(InvalidArgument);
        }
      }
      assert mask[..|mask|] == mask;
      var reply := repo.Update(id, name, email, nameSet, emailSet, now, outcome);
      r := ToReply(reply);
    }

    method DeleteUser(id: string, ghost now: nat, outcome: Outcome) returns (r: UserReply)
      modifies repo
      ensures repo.users == Serve(old(repo.users), DeleteReq(id), now, outcome)
      ensures id == "" ==> repo.users == old(repo.users) && r == Refused(InvalidArgument)
      ensures id != "" ==>
        && repo.users == (if outcome.NotApplied? then old(repo.users) else old(repo.users) - {id})
        && r == if !outcome.Applied? then Refused(Internal)
                else if id in old(repo.users) then Deleted else Refused(NoSuchUser)
    {
      if id == "" { return Refused(InvalidArgument); }
      var found, failed := repo.Delete(id, outcome);
      if failed { return Refused(Internal); }
      if !found { return Refused(NoSuchUser); }
      r := Deleted;
    }
  }

  // ---------------------------------------------------------------- every run

  ghost predicate UserOk(row: UserRow) {
    row.name != "" && Trimmed(row.name) && ValidEmail(row.email) && Trimmed(row.email) && FitsUser(row)
  }

  ghost predicate UsersOk(users: Users) {
    && (forall id :: id in users ==> UserOk(users[id]))
    && (forall a, b :: a in users && b in users && users[a].email == users[b].email ==> a == b)
  }

  datatype Request =
    | CreateReq(name: string, email: string, id: string)
    | UpdateReq(id: string, mask: seq<string>, user: Profile)
    | DeleteReq(id: string)

  /** The table after one request, as the server's methods promise it. */
  function Serve(users: Users, req: Request, now: nat, outcome: Outcome): Users {
    match req
    case CreateReq(name, email, id) =>
      if ValidCreate(name, email)
      then TableAfter(users, CreateMeaning(users, id, TrimSpace(name), TrimSpace(email), now), outcome)
      else users
    case UpdateReq(id, mask, user) =>
      if ValidUpdate(id, mask, user)
      then TableAfter(users, UpdateMeaning(users, id, MaskedName(mask, user), MaskedEmail(mask, user), now), outcome)
      else users
    case DeleteReq(id) =>
      if id != "" && !outcome.NotApplied? then users - {id} else users
  }

  function ServeAll(users: Users, reqs: seq<(Request, nat, Outcome)>): Users
    decreases |reqs|
  {
    if reqs == [] then users else ServeAll(Serve(users, reqs[0].0, reqs[0].1, reqs[0].2), reqs[1..])
  }

  lemma JudgedRowKeepsUsersOk(users: Users, id: string, row: UserRow, outcome: Outcome)
    requires UsersOk(users)
    requires row.name != "" && Trimmed(row.name) && ValidEmail(row.email) && Trimmed(row.email)
    ensures UsersOk(TableAfter(users, Judge(users, id, row), outcome))
  {}

  lemma ServeKeepsUsersOk(users: Users, req: Request, now: nat, outcome: Outcome)
    requires UsersOk(users)
    ensures UsersOk(Serve(users, req, now, outcome))
  {
    match req {
      case CreateReq(name, email, id) =>
        if ValidCreate(name, email) {
          JudgedRowKeepsUsersOk(users, id, UserRow(TrimSpace(name), TrimSpace(email), now, now), outcome);
        }
      case UpdateReq(id, mask, user) =>
        if ValidUpdate(id, mask, user) && id in users {
          assert UserOk(users[id]);
          assert mask[0] in mask && ValidPath(mask[0], user);
          assert "name" in mask ==> ValidPath("name", user);
          assert "email" in mask ==> ValidPath("email", user);
          NamesDiffer();
          var row := Masked(users[id], MaskedName(mask, user), MaskedEmail(mask, user), now);
          JudgedRowKeepsUsersOk(users, id, row, outcome);
        }
      case DeleteReq(id) =>
    }
  }

  lemma NamesDiffer()
    ensures "name" != "email"
  {
    assert |"name"| != |"email"|;
  }

  /** Over any sequence of requests, stored emails stay distinct and contain an '@', and names stay
      non-empty and trimmed. */
  lemma {:induction false} UsersStayOk(users: Users, reqs: seq<(Request, nat, Outcome)>)
    requires UsersOk(users)
    ensures UsersOk(ServeAll(users, reqs))
    decreases |reqs|
  {
    if reqs != [] {
      ServeKeepsUsersOk(users, reqs[0].0, reqs[0].1, reqs[0].2);
      UsersStayOk(Serve(users, reqs[0].0, reqs[0].1, reqs[0].2), reqs[1..]);
    }
  }

  /** Order and repetition in a mask do not matter. */
  lemma MaskIsASet(id: string, a: seq<string>, b: seq<string>, user: Profile)
    requires forall path :: path in a <==> path in b
    ensures ValidUpdate(id, a, user) <==> ValidUpdate(id, b, user)
    ensures MaskedName(a, user) == MaskedName(b, user) && MaskedEmail(a, user) == MaskedEmail(b, user)
  {
    if a != [] { assert a[0] in b; }
    if b != [] { assert b[0] in a; }
  }
}
