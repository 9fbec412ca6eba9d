/** The credential store of auth_db.go as in-memory tables: users keyed by id,
    with their insertion order (the order a document query scans them in), and
    the sequence of issued token records. The query filters of the store
    decide which records each call finds, replaces or removes. */
module AuthStore {
  import opened AuthModels

  /** The position of the first element satisfying `p`: what FindOne,
      UpdateOne and DeleteOne select when several records match. */
  function FirstIndex<T>(s: seq<T>, p: T -> bool): (r: Option<nat>)
    ensures r.Some? ==> r.value < |s| && p(s[r.value])
    ensures r.Some? ==> forall j :: 0 <= j < r.value ==> !p(s[j])
    ensures r.None? ==> forall j :: 0 <= j < |s| ==> !p(s[j])
  {
    if s == [] then None
    else if p(s[0]) then Some(0)
    else match FirstIndex(s[1..], p)
      case None => None
      case Some(i) => Some(i + 1)
  }

  /** The elements satisfying `p`, in their order: what DeleteMany keeps. Each
      kept element keeps its multiplicity; every other element is gone. */
  function Filter<T(!new)>(s: seq<T>, p: T -> bool): (r: seq<T>)
    ensures forall x :: multiset(r)[x] == if p(x) then multiset(s)[x] else 0
    ensures forall x :: x in r <==> x in s && p(x)
    ensures |r| <= |s|
  {
    if s == [] then []
    else
      var rest := Filter(s[1..], p);
      assert s == [s[0]] + s[1..];
      if p(s[0]) then [s[0]] + rest else rest
  }

  /** Every record is stored under its own id. */
  ghost predicate Keyed(users: map<string, User>)
  {
    forall k :: k in users ==> users[k].id == k
  }

  /** FindOne({"_id": id}): the record stored under `id`. */
  function UserById(users: map<string, User>, id: string): (r: Option<User>)
    ensures r.Some? <==> id in users
    ensures r.Some? ==> r.value == users[id]
    ensures r.Some? && Keyed(users) ==> r.value.id == id
  {
    if id in users then Some(users[id]) else None
  }

  /** The id of the first user, in insertion order, with that username. */
  function IdByUsername(order: seq<string>, users: map<string, User>, name: string): (r: Option<string>)
    ensures r.Some? ==> r.value in order && r.value in users && users[r.value].username == name
    ensures r.Some? ==> exists i :: 0 <= i < |order| && order[i] == r.value
                          && forall j :: 0 <= j < i ==> !(order[j] in users && users[order[j]].username == name)
    ensures r.None? ==> forall k :: k in order && k in users ==> users[k].username != name
  {
    match FirstIndex(order, k => k in users && users[k].username == name)
    case None => None
    case Some(i) => Some(order[i])
  }

  /** FindOne({"username": name}): the first user with that username. */
  function UserByUsername(order: seq<string>, users: map<string, User>, name: string): (r: Option<User>)
    ensures r.Some? ==> r.value.username == name
    ensures r.Some? ==> exists k :: k in users && users[k] == r.value
    ensures r.None? ==> forall k :: k in order && k in users ==> users[k].username != name
  {
    match IdByUsername(order, users, name)
    case None => None
    case Some(k) => Some(users[k])
  }

  /** FindOne({"token": value}) on the token table. */
  function TokenByValue(tokens: seq<Token>, value: string): (r: Option<Token>)
    ensures r.Some? ==> r.value in tokens && r.value.token == value
    ensures r.None? <==> forall t :: t in tokens ==> t.token != value
  {
    match FirstIndex(tokens, (t: Token) => t.token == value)
    case None => None
    case Some(i) => Some(tokens[i])
  }

  /** DeleteMany({"user_id": id}). */
  function RemoveTokensOf(tokens: seq<Token>, id: string): (r: seq<Token>)
    ensures forall t :: t in r ==> t.userId != id
    ensures forall t: Token :: t.userId != id ==> multiset(r)[t] == multiset(tokens)[t]
  {
    Filter(tokens, (t: Token) => t.userId != id)
  }

  /** DeleteOne({"user_id": id}): the first token of that user goes. */
  function RemoveFirstTokenOf(tokens: seq<Token>, id: string): (r: seq<Token>)
  {
    match FirstIndex(tokens, (t: Token) => t.userId == id)
    case None => tokens
    case Some(i) => tokens[..i] + tokens[i + 1..]
  }

  /** DeleteOne by user id removes exactly the earliest record of that user,
      whatever its token string. */
  lemma RemoveFirstTokenOfRemovesOne(tokens: seq<Token>, id: string, i: nat)
    requires i < |tokens| && tokens[i].userId == id
    requires forall j :: 0 <= j < i ==> tokens[j].userId != id
    ensures RemoveFirstTokenOf(tokens, id) == tokens[..i] + tokens[i + 1..]
  {
    var p := (t: Token) => t.userId == id;
    var r := FirstIndex(tokens, p);
    assert p(tokens[i]);
    assert r.Some?;
  }

  /** DeleteOne by user id removes nothing when the user has no token. */
  lemma RemoveFirstTokenOfNoneLeft(tokens: seq<Token>, id: string)
    requires forall t :: t in tokens ==> t.userId != id
    ensures RemoveFirstTokenOf(tokens, id) == tokens
  {
    var p := (t: Token) => t.userId == id;
    assert forall j :: 0 <= j < |tokens| ==> !p(tokens[j]) by {
      forall j | 0 <= j < |tokens| ensures !p(tokens[j]) {
        assert tokens[j] in tokens;
      }
    }
  }

  /** The records whose username is not `name`: what DeleteMany({"username"}) keeps. */
  function WithoutUsername(users: map<string, User>, name: string): (r: map<string, User>)
    ensures forall k :: k in r <==> k in users && users[k].username != name
    ensures forall k :: k in r ==> r[k] == users[k]
  {
    map k | k in users && users[k].username != name :: users[k]
  }

  /** The ids of `order` still stored in `keep`. */
  function KeepIds(order: seq<string>, keep: set<string>): (r: seq<string>)
    ensures forall k :: multiset(r)[k] == if k in keep then multiset(order)[k] else 0
  {
    Filter(order, k => k in keep)
  }

  /** ReplaceOne by id: the record under `u.id` becomes `u` when there is one
      and it differs from `u` (otherwise the store reports nothing modified). */
  function Replaced(users: map<string, User>, u: User): (r: map<string, User>)
  {
    if u.id in users && users[u.id] != u then users[u.id := u] else users
  }

  /** The projection GetAllUsers decodes each record into. */
  function Summary(u: User): (s: UserOutputAll)
  {
    UserOutputAll(u.id, u.username, u.firstName, u.lastName, u.role, u.state,
                  u.personnelNumber, u.vacationDaysPerYear, u.targetHoursPerWeek,
                  u.maximumHoursPerWeek, u.insertedAt, u.updatedAt)
  }

  /** Inserting a user puts it behind every earlier record, so a username
      lookup still finds an earlier user of the same name first; when there is
      none it finds the new record. */
  lemma UserByUsernameAfterInsert(order: seq<string>, users: map<string, User>, id: string, u: User, name: string)
    requires id !in users && id !in order
    ensures UserByUsername(order, users, name).Some? ==>
              UserByUsername(order + [id], users[id := u], name) == UserByUsername(order, users, name)
    ensures UserByUsername(order, users, name).None? && u.username == name ==>
              UserByUsername(order + [id], users[id := u], name) == Some(u)
  {
    var p := k => k in users && users[k].username == name;
    var q := k => k in users[id := u] && users[id := u][k].username == name;
    var order' := order + [id];
    PrefixFirstIndex(order, order', p, q);
  }

  /** Helper: two predicates that agree on a prefix find the same first index
      there, and where `p` finds nothing in the prefix, `q` looks past it. */
  lemma {:induction false} PrefixFirstIndex(s: seq<string>, s': seq<string>, p: string -> bool, q: string -> bool)
    requires |s| + 1 == |s'| && s'[..|s|] == s
    requires forall j :: 0 <= j < |s| ==> p(s[j]) == q(s[j])
    ensures FirstIndex(s, p).Some? ==> FirstIndex(s', q) == FirstIndex(s, p)
    ensures FirstIndex(s, p).None? ==> FirstIndex(s', q) == (if q(s'[|s|]) then Some(|s|) else None)
  {
    if s != [] {
      assert s'[1..][..|s| - 1] == s[1..];
      PrefixFirstIndex(s[1..], s'[1..], p, q);
    }
  }

  /** The user and token tables. `order` lists the stored ids in the order
      they were inserted, each exactly once. */
  class AuthDb {
    var users: map<string, User>
    var order: seq<string>
    var tokens: seq<Token>

    ghost predicate Valid()
      reads this
    {
      && Keyed(users)
      && "" !in users
      && forall k :: multiset(order)[k] == if k in users then 1 else 0
    }

    constructor ()
      ensures Valid()
      ensures users == map[] && order == [] && tokens == []
    {
      users, order, tokens := map[], [], [];
    }

    /** InsertOne(user): no uniqueness check on the username; the store
        assigns the fresh `_id` given as `newId`. */
    method CreateUser(user: User, newId: string)
      requires Valid() && newId != "" && newId !in users
      modifies this
      ensures Valid()
      ensures users == old(users)[newId := user.(id := newId)]
      ensures order == old(order) + [newId] && tokens == old(tokens)
    {
      users := users[newId := user.(id := newId)];
      order := order + [newId];
    }

    /** InsertOne of a token record, with the token type Login passes in. */
    method WriteTokenToDatabase(userId: string, token: string, tokenType: TokenType, expires: int, now: int)
      returns (record: Token)
      modifies this
      ensures record == Token(userId, token, false, false, tokenType, now, now, expires)
      ensures tokens == old(tokens) + [record]
      ensures users == old(users) && order == old(order)
    {
      record := Token(userId, token, false, false, tokenType, now, now, expires);
      tokens := tokens + [record];
    }

    method DeleteTokensByUserId(userId: string)
      modifies this
      ensures tokens == RemoveTokensOf(old(tokens), userId)
      ensures users == old(users) && order == old(order)
    {
      tokens := RemoveTokensOf(tokens, userId);
    }

    /** The `token` argument takes no part in the filter. */
    method DeleteTokenByUserId(userId: string, token: string)
      modifies this
      ensures tokens == RemoveFirstTokenOf(old(tokens), userId)
      ensures users == old(users) && order == old(order)
    {
      tokens := RemoveFirstTokenOf(tokens, userId);
    }

    method DeleteUserByUsername(username: string)
      requires Valid()
      modifies this
      ensures Valid()
      ensures users == WithoutUsername(old(users), username)
      ensures order == KeepIds(old(order), users.Keys) && tokens == old(tokens)
    {
      users := WithoutUsername(users, username);
      order := KeepIds(order, users.Keys);
    }

    /** Delete by id, which auth.go calls and auth_db.go does not define:
        the record under `id` goes, if there is one; no error either way. */
    method DeleteUserById(id: string)
      requires Valid()
      modifies this
      ensures Valid()
      ensures users == old(users) - {id}
      ensures order == KeepIds(old(order), users.Keys) && tokens == old(tokens)
    {
      users := users - {id};
      order := KeepIds(order, users.Keys);
    }

    /** UpdateUser(&user): blanks the Id of the caller's struct, then replaces
        the record with that id. A replacement that changes nothing, or finds
        nothing, falls back to a `$set` whose `_id` filter is the raw string,
        which never equals a stored ObjectID, so the call reports an error. */
    method UpdateUser(user: User) returns (caller: User, err: Outcome)
      requires Valid()
      modifies this
      ensures Valid()
      ensures caller == user.(id := "")
      ensures err.Pass? <==> user.id in old(users) && old(users)[user.id] != user
      ensures err.Fail? ==> err.error == NotUpdated
      ensures users == Replaced(old(users), user)
      ensures order == old(order) && tokens == old(tokens)
    {
      caller := user.(id := "");
      if user.id in users && users[user.id] != user {
        users := users[user.id := user];
        err := Pass;
      } else {
        err := Fail(NotUpdated);
      }
    }

    /** UpdateOne with `$set` on the record stored under `u.id`, as the
        service's own writes by username do once the filter has matched. */
    method ReplaceRecord(u: User)
      requires Valid() && u.id in users
      modifies this
      ensures Valid()
      ensures users == old(users)[u.id := u]
      ensures order == old(order) && tokens == old(tokens)
    {
      users := users[u.id := u];
    }

    /** The cursor loop of GetAllUsers: every stored user once, in insertion order. */
    method GetAllUsers() returns (all: seq<UserOutputAll>)
      requires Valid()
      ensures |all| == |order|
      ensures forall i :: 0 <= i < |order| ==> order[i] in users && all[i] == Summary(users[order[i]])
    {
      all := [];
      var i := 0;
      while i < |order|
        invariant 0 <= i <= |order|
        invariant |all| == i
        invariant forall j :: 0 <= j < i ==> order[j] in users && all[j] == Summary(users[order[j]])
      {
        assert multiset(order)[order[i]] > 0;
        all := all + [Summary(users[order[i]])];
        i := i + 1;
      }
    }
  }
}
