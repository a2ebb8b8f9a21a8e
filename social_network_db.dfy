/**
 * The database-backed social network
 * (inclass/relational_dbs/the_social_network_db_finished_version.py).
 *
 * The model and the users are those of the in-memory network, with two
 * additions: every user carries the id of its row in the Users table (None
 * until the user has a row), and a model can be rebuilt from the three
 * tables Users, Friends and Posts.  Here the connection is absent: the
 * operations change only the objects, and the loader receives the rows the
 * three SELECT statements return, in the order they return them.
 *
 * The loader trusts the tables.  A Friends row adds one entry to one user's
 * list (the user named in User_1); symmetry of the rebuilt lists therefore
 * rests on every row being matched by a mirrored row, in any order.  The
 * tables make_friends writes from the empty table reset_db creates are of
 * this kind: their rows come in adjacent mirrored pairs.
 */
module SocialNetworkDb {
  import opened Wrappers
  import SocialNetwork

  type Post = SocialNetwork.Post

  class User {
    const firstName: string
    const lastName: string
    const job: string
    const favoriteAlgorithm: string
    /** Id of the user's row in the Users table; None when it has none.  Only
        add_user over a connection assigns it after construction. */
    const dbId: Option<int>
    var posts: seq<Post>
    /** A Friends row naming an id that has no user yields a null entry. */
    var friends: seq<User?>

    constructor (firstName: string, lastName: string, job: string, favoriteAlgorithm: string,
                 dbId: Option<int> := None)
      ensures this.firstName == firstName && this.lastName == lastName
      ensures this.job == job && this.favoriteAlgorithm == favoriteAlgorithm
      ensures this.dbId == dbId
      ensures posts == [] && friends == []
    {
      this.firstName := firstName;
      this.lastName := lastName;
      this.job := job;
      this.favoriteAlgorithm := favoriteAlgorithm;
      this.dbId := dbId;
      posts := [];
      friends := [];
    }
  }

  /* ---------------------------------------------------------------------
     Finding users by name and by id
     --------------------------------------------------------------------- */

  predicate HasName(u: User, firstName: string, lastName: string) {
    u.firstName == firstName && u.lastName == lastName
  }

  predicate UniqueNames(us: seq<User>) {
    forall i, j :: 0 <= i < j < |us| ==> !(us[i].firstName == us[j].firstName && us[i].lastName == us[j].lastName)
  }

  /** The first user in list order with the given names, or None. */
  function Find(us: seq<User>, firstName: string, lastName: string): (r: Option<User>)
    ensures r.Some? ==> r.value in us && HasName(r.value, firstName, lastName)
    ensures r.None? <==> forall k :: 0 <= k < |us| ==> !HasName(us[k], firstName, lastName)
  {
    if us == [] then None
    else if HasName(us[0], firstName, lastName) then Some(us[0])
    else Find(us[1..], firstName, lastName)
  }

  lemma {:induction false} FindFirst(us: seq<User>, firstName: string, lastName: string, i: nat)
    requires i < |us| && HasName(us[i], firstName, lastName)
    requires forall k :: 0 <= k < i ==> !HasName(us[k], firstName, lastName)
    ensures Find(us, firstName, lastName) == Some(us[i])
  {
    if i > 0 {
      FindFirst(us[1..], firstName, lastName, i - 1);
    }
  }

  /** The index of the first user whose id equals id, or None. */
  function IndexById(us: seq<User>, id: Option<int>): (r: Option<nat>)
    ensures r.Some? ==> r.value < |us| && us[r.value].dbId == id
                        && forall k :: 0 <= k < r.value ==> us[k].dbId != id
    ensures r.None? <==> forall k :: 0 <= k < |us| ==> us[k].dbId != id
  {
    if us == [] then None
    else if us[0].dbId == id then Some(0)
    else match IndexById(us[1..], id)
      case None => None
      case Some(k) => Some(k + 1)
  }

  /** Every list entry is a different object. */
  predicate Distinct(us: seq<User>) {
    forall i, j :: 0 <= i < j < |us| ==> us[i] != us[j]
  }

  /* ---------------------------------------------------------------------
     Rows of the three tables
     --------------------------------------------------------------------- */

  datatype UserRow = UserRow(id: int, firstName: string, lastName: string, job: string, favoriteAlgorithm: string)
  datatype FriendRow = FriendRow(user1: int, user2: int)
  datatype PostRow = PostRow(user: int, text: string)

  /** The index of the first Users row with the id, or None. */
  function RowIndex(rows: seq<UserRow>, id: int): (r: Option<nat>)
    ensures r.Some? ==> r.value < |rows| && rows[r.value].id == id
                        && forall k :: 0 <= k < r.value ==> rows[k].id != id
    ensures r.None? <==> forall k :: 0 <= k < |rows| ==> rows[k].id != id
  {
    if rows == [] then None
    else if rows[0].id == id then Some(0)
    else match RowIndex(rows[1..], id)
      case None => None
      case Some(k) => Some(k + 1)
  }

  /** The names, job and favourite algorithm of the user are those of the row. */
  predicate BuiltFrom(u: User, row: UserRow) {
    u.firstName == row.firstName && u.lastName == row.lastName && u.job == row.job
    && u.favoriteAlgorithm == row.favoriteAlgorithm
  }

  /** Once the users of the rows are in place, searching them by id finds the
      first row with that id. */
  lemma {:induction false} IndexByIdOfRows(us: seq<User>, rows: seq<UserRow>, id: int)
    requires |us| == |rows|
    requires forall k :: 0 <= k < |us| ==> us[k].dbId == Some(rows[k].id)
    ensures IndexById(us, Some(id)) == RowIndex(rows, id)
  {
    if us != [] {
      IndexByIdOfRows(us[1..], rows[1..], id);
    }
  }

  /** For the row owner i: where each Friends row with User_1 naming i points,
      in row order (the index of the User_2 row, or None for an unknown id). */
  function FriendTargets(rows: seq<UserRow>, fr: seq<FriendRow>, i: nat): (r: seq<Option<nat>>)
    ensures forall k :: 0 <= k < |r| ==> r[k].Some? ==> r[k].value < |rows|
  {
    if fr == [] then []
    else
      var f := fr[|fr| - 1];
      FriendTargets(rows, fr[..|fr| - 1], i)
      + (if RowIndex(rows, f.user1) == Some(i) then [RowIndex(rows, f.user2)] else [])
  }

  /** The posts of the Posts rows whose User names row i, in row order. */
  function PostsOf(rows: seq<UserRow>, pr: seq<PostRow>, i: nat): seq<Post> {
    if pr == [] then []
    else
      var p := pr[|pr| - 1];
      PostsOf(rows, pr[..|pr| - 1], i)
      + (if RowIndex(rows, p.user) == Some(i) then [SocialNetwork.Post(p.text)] else [])
  }

  /** The users the targets designate, null where the target is None. */
  function Resolve(us: seq<User>, ix: seq<Option<nat>>): (r: seq<User?>)
    requires forall k :: 0 <= k < |ix| ==> ix[k].Some? ==> ix[k].value < |us|
    ensures |r| == |ix|
  {
    if ix == [] then []
    else
      Resolve(us, ix[..|ix| - 1])
      + [match ix[|ix| - 1] case None => null case Some(j) => us[j]]
  }

  /* ---------------------------------------------------------------------
     Mirrored friend rows
     --------------------------------------------------------------------- */

  /** The two Friends rows make_friends inserts for a pair of users. */
  function FriendRowsWritten(id1: int, id2: int): (r: seq<FriendRow>)
    ensures |r| == 2 && r[1] == FriendRow(r[0].user2, r[0].user1)
  {
    [FriendRow(id1, id2), FriendRow(id2, id1)]
  }

  /** The table consists of mirrored pairs of rows. */
  predicate Paired(fr: seq<FriendRow>) {
    |fr| % 2 == 0
    && forall k :: 0 <= k < |fr| / 2 ==> fr[2 * k + 1] == FriendRow(fr[2 * k].user2, fr[2 * k].user1)
  }

  /** The two rows make_friends writes keep a paired table paired. */
  lemma PairedAfterMakeFriends(fr: seq<FriendRow>, id1: int, id2: int)
    requires Paired(fr)
    ensures Paired(fr + FriendRowsWritten(id1, id2))
  {
    var fr' := fr + FriendRowsWritten(id1, id2);
    forall k | 0 <= k < |fr'| / 2
      ensures fr'[2 * k + 1] == FriendRow(fr'[2 * k].user2, fr'[2 * k].user1)
    {
      if k < |fr| / 2 {
        assert fr'[2 * k] == fr[2 * k] && fr'[2 * k + 1] == fr[2 * k + 1];
      } else {
        assert 2 * k == |fr|;
      }
    }
  }

  /** The Friends table after reset_db and a sequence of make_friends calls,
      each given by the ids of its two users. */
  function TableAfter(calls: seq<(int, int)>): (fr: seq<FriendRow>)
    ensures |fr| == 2 * |calls|
  {
    if calls == [] then []
    else
      var c := calls[|calls| - 1];
      TableAfter(calls[..|calls| - 1]) + FriendRowsWritten(c.0, c.1)
  }

  /** A table written by make_friends alone, from the empty table reset_db
      creates, is paired. */
  lemma {:induction false} TableAfterPaired(calls: seq<(int, int)>)
    ensures Paired(TableAfter(calls))
  {
    if calls != [] {
      var c := calls[|calls| - 1];
      TableAfterPaired(calls[..|calls| - 1]);
      PairedAfterMakeFriends(TableAfter(calls[..|calls| - 1]), c.0, c.1);
    }
  }

  /** Whether a Friends row leads from row i to row j. */
  function Links(rows: seq<UserRow>, f: FriendRow, i: nat, j: nat): nat {
    if RowIndex(rows, f.user1) == Some(i) && RowIndex(rows, f.user2) == Some(j) then 1 else 0
  }

  /** The number of Friends rows leading from row i to row j. */
  function CountLinks(rows: seq<UserRow>, fr: seq<FriendRow>, i: nat, j: nat): nat {
    if fr == [] then 0 else CountLinks(rows, fr[..|fr| - 1], i, j) + Links(rows, fr[|fr| - 1], i, j)
  }

  /** In a paired table there are as many rows from i to j as from j to i. */
  lemma {:induction false} CountLinksPaired(rows: seq<UserRow>, fr: seq<FriendRow>, i: nat, j: nat)
    requires Paired(fr)
    ensures CountLinks(rows, fr, i, j) == CountLinks(rows, fr, j, i)
  {
    if fr != [] {
      var n := |fr|;
      var init := fr[..n - 2];
      assert fr[n - 1] == FriendRow(fr[n - 2].user2, fr[n - 2].user1) by {
        assert 2 * (n / 2 - 1) == n - 2;
      }
      assert Paired(init) by {
        forall k | 0 <= k < |init| / 2
          ensures init[2 * k + 1] == FriendRow(init[2 * k].user2, init[2 * k].user1)
        {
          assert init[2 * k] == fr[2 * k] && init[2 * k + 1] == fr[2 * k + 1];
        }
      }
      CountLinksPaired(rows, init, i, j);
      assert fr[..n - 1][..n - 2] == init;
    }
  }

  /** As many Friends rows lead from i to j as from j to i, for every two
      rows of Users, in whatever order the rows come. */
  predicate Mirrored(rows: seq<UserRow>, fr: seq<FriendRow>) {
    forall i, j :: 0 <= i < |rows| && 0 <= j < |rows| ==> CountLinks(rows, fr, i, j) == CountLinks(rows, fr, j, i)
  }

  /** A paired table is mirrored. */
  lemma PairedMirrored(rows: seq<UserRow>, fr: seq<FriendRow>)
    requires Paired(fr)
    ensures Mirrored(rows, fr)
  {
    forall i, j | 0 <= i < |rows| && 0 <= j < |rows|
      ensures CountLinks(rows, fr, i, j) == CountLinks(rows, fr, j, i)
    {
      CountLinksPaired(rows, fr, i, j);
    }
  }

  /** In a Users table whose ids are 1, 2, ..., the row of id k + 1 is row k. */
  lemma RowIndexOfConsecutive(rows: seq<UserRow>, k: nat)
    requires forall m :: 0 <= m < |rows| ==> rows[m].id == m + 1
    requires k < |rows|
    ensures RowIndex(rows, k + 1) == Some(k)
  {
    assert rows[k].id == k + 1;
    var v := RowIndex(rows, k + 1).value;
    assert rows[v].id == v + 1;
  }

  /** The links of a four-row table, row by row. */
  lemma CountLinksFour(rows: seq<UserRow>, fr: seq<FriendRow>, i: nat, j: nat)
    requires |fr| == 4
    ensures CountLinks(rows, fr, i, j)
         == Links(rows, fr[0], i, j) + Links(rows, fr[1], i, j) + Links(rows, fr[2], i, j) + Links(rows, fr[3], i, j)
  {
    var p1, p2, p3 := fr[..1], fr[..2], fr[..3];
    assert p1[..0] == [] && p2[..1] == p1 && p3[..2] == p2 && fr[..3] == p3;
    assert CountLinks(rows, p1, i, j) == Links(rows, fr[0], i, j);
    assert CountLinks(rows, p2, i, j) == CountLinks(rows, p1, i, j) + Links(rows, fr[1], i, j);
    assert CountLinks(rows, p3, i, j) == CountLinks(rows, p2, i, j) + Links(rows, fr[2], i, j);
  }

  /** Mirrored rows need not be adjacent: a table whose pairs are
      interleaved is not paired, but it is mirrored. */
  lemma InterleavedMirrored(rows: seq<UserRow>, fr: seq<FriendRow>)
    requires |rows| == 4 && forall m :: 0 <= m < |rows| ==> rows[m].id == m + 1
    requires fr == [FriendRow(1, 2), FriendRow(3, 4), FriendRow(2, 1), FriendRow(4, 3)]
    ensures !Paired(fr)
    ensures Mirrored(rows, fr)
  {
    assert fr[2 * 0 + 1] != FriendRow(fr[2 * 0].user2, fr[2 * 0].user1);
    RowIndexOfConsecutive(rows, 0);
    RowIndexOfConsecutive(rows, 1);
    RowIndexOfConsecutive(rows, 2);
    RowIndexOfConsecutive(rows, 3);
    forall i, j | 0 <= i < |rows| && 0 <= j < |rows|
      ensures CountLinks(rows, fr, i, j) == CountLinks(rows, fr, j, i)
    {
      CountLinksFour(rows, fr, i, j);
      CountLinksFour(rows, fr, j, i);
    }
  }

  /** The targets of row i name row j once per row leading from i to j. */
  lemma {:induction false} TargetsCount(rows: seq<UserRow>, fr: seq<FriendRow>, i: nat, j: nat)
    ensures multiset(FriendTargets(rows, fr, i))[Some(j)] == CountLinks(rows, fr, i, j)
  {
    if fr != [] {
      var f := fr[|fr| - 1];
      TargetsCount(rows, fr[..|fr| - 1], i, j);
      assert multiset(FriendTargets(rows, fr, i))
          == multiset(FriendTargets(rows, fr[..|fr| - 1], i))
             + multiset(if RowIndex(rows, f.user1) == Some(i) then [RowIndex(rows, f.user2)] else []);
    }
  }

  /** Appending x adds one occurrence of x and none of anything else. */
  lemma CountAppend<T>(s: seq<T>, x: T, y: T)
    ensures multiset(s + [x])[y] == multiset(s)[y] + (if x == y then 1 else 0)
  {
  }

  /** Over distinct users, user j occurs among the resolved targets as often
      as the index j does among the targets. */
  lemma {:induction false} ResolveCount(us: seq<User>, ix: seq<Option<nat>>, j: nat)
    requires Distinct(us) && j < |us|
    requires forall k :: 0 <= k < |ix| ==> ix[k].Some? ==> ix[k].value < |us|
    ensures multiset(Resolve(us, ix))[us[j]] == multiset(ix)[Some(j)]
  {
    if ix != [] {
      var init, last := ix[..|ix| - 1], ix[|ix| - 1];
      ResolveCount(us, init, j);
      var x: User? := match last case None => null case Some(m) => us[m];
      assert ix == init + [last];
      assert Resolve(us, ix) == Resolve(us, init) + [x];
      CountAppend(Resolve(us, init), x, us[j]);
      CountAppend(init, last, Some(j));
      if last.Some? && last.value != j {
        assert us[last.value] != us[j];
      }
    }
  }

  /** Friend lists rebuilt from a mirrored table are symmetric. */
  lemma LoadedSymmetric(us: seq<User>, rows: seq<UserRow>, fr: seq<FriendRow>, i: nat, j: nat)
    requires Distinct(us) && |us| == |rows| && i < |us| && j < |us|
    requires Mirrored(rows, fr)
    ensures multiset(Resolve(us, FriendTargets(rows, fr, i)))[us[j]]
         == multiset(Resolve(us, FriendTargets(rows, fr, j)))[us[i]]
  {
    ResolveCount(us, FriendTargets(rows, fr, i), j);
    ResolveCount(us, FriendTargets(rows, fr, j), i);
    TargetsCount(rows, fr, i, j);
    TargetsCount(rows, fr, j, i);
  }

  /* ---------------------------------------------------------------------
     The model
     --------------------------------------------------------------------- */

  class SocialNetworkModel {
    var users: seq<User>

    ghost predicate Valid()
      reads this
    {
      UniqueNames(users)
    }

    /** For every two users of the model, each appears in the other's
        friend list equally often. */
    ghost predicate FriendsSymmetric()
      reads this, users
    {
      forall i, j :: 0 <= i < |users| && 0 <= j < |users| ==>
        multiset(users[i].friends)[users[j]] == multiset(users[j].friends)[users[i]]
    }

    /** A model without a connection. */
    constructor ()
      ensures Valid() && FriendsSymmetric()
      ensures users == []
    {
      users := [];
    }

    /** lookup_user: the first user with the names, or None. */
    method LookupUser(firstName: string, lastName: string) returns (u: Option<User>)
      ensures u == Find(users, firstName, lastName)
    {
      for i := 0 to |users|
        invariant forall k :: 0 <= k < i ==> !HasName(users[k], firstName, lastName)
      {
        if users[i].firstName == firstName && users[i].lastName == lastName {
          FindFirst(users, firstName, lastName, i);
          return Some(users[i]);
        }
      }
      return None;
    }

    /** lookup_user_by_id: the first user whose id equals id, or None. */
    method LookupUserById(id: Option<int>) returns (u: Option<User>)
      ensures u.None? <==> IndexById(users, id).None?
      ensures u.Some? ==> u.value == users[IndexById(users, id).value]
    {
      for i := 0 to |users|
        invariant forall k :: 0 <= k < i ==> users[k].dbId != id
      {
        if users[i].dbId == id {
          return Some(users[i]);
        }
      }
      return None;
    }

    /** add_user without a connection: a user whose names are taken is
        refused; otherwise the user is appended with its id as it was. */
    method AddUser(user: User)
      modifies this
      ensures old(Valid()) ==> Valid()
      ensures old(Find(users, user.firstName, user.lastName)).Some? ==> users == old(users)
      ensures old(Find(users, user.firstName, user.lastName)).None? ==> users == old(users) + [user]
      ensures Find(users, user.firstName, user.lastName).Some?
    {
      var existing := LookupUser(user.firstName, user.lastName);
      if existing != None {
        return;
      }
      FindFirst(users + [user], user.firstName, user.lastName, |users|);
      users := users + [user];
    }

    /** make_friends without a connection: each user is appended to the
        other's friend list. */
    method MakeFriends(user1: User, user2: User)
      modifies user1, user2
      ensures user1 != user2 ==> user1.friends == old(user1.friends) + [user2]
      ensures user1 != user2 ==> user2.friends == old(user2.friends) + [user1]
      ensures user1 == user2 ==> user1.friends == old(user1.friends) + [user2, user1]
      ensures user1.posts == old(user1.posts) && user2.posts == old(user2.posts)
    {
      user1.friends := user1.friends + [user2];
      user2.friends := user2.friends + [user1];
    }

    /** post without a connection: one post is appended. */
    method AddPost(user: User, text: string)
      modifies user
      ensures user.posts == old(user.posts) + [SocialNetwork.Post(text)]
      ensures user.friends == old(user.friends)
    {
      user.posts := user.posts + [SocialNetwork.Post(text)];
    }
  }

  /** load_model: one fresh user per Users row, in row order, carrying the
      row's id; then each Friends row appends its User_2 user (null for an
      unknown id) to its User_1 user; then each Posts row appends a post to
      its user.  Every User_1 and every User must name a known id: the source
      fails on any other row. */
  method LoadModel(userRows: seq<UserRow>, friendRows: seq<FriendRow>, postRows: seq<PostRow>)
    returns (model: SocialNetworkModel)
    requires forall k :: 0 <= k < |friendRows| ==> RowIndex(userRows, friendRows[k].user1).Some?
    requires forall k :: 0 <= k < |postRows| ==> RowIndex(userRows, postRows[k].user).Some?
    ensures fresh(model) && |model.users| == |userRows| && Distinct(model.users)
    ensures forall i :: 0 <= i < |userRows| ==>
              fresh(model.users[i]) && BuiltFrom(model.users[i], userRows[i]) && model.users[i].dbId == Some(userRows[i].id)
    ensures forall i :: 0 <= i < |userRows| ==>
              model.users[i].friends == Resolve(model.users, FriendTargets(userRows, friendRows, i))
    ensures forall i :: 0 <= i < |userRows| ==> model.users[i].posts == PostsOf(userRows, postRows, i)
    ensures Mirrored(userRows, friendRows) ==> model.FriendsSymmetric()
  {
    model := LoadUsers(userRows);
    LoadFriends(model, userRows, friendRows);
    LoadPosts(model, userRows, postRows);
    if Mirrored(userRows, friendRows) {
      LoadedModelSymmetric(model, userRows, friendRows);
    }
  }

  /** A model whose friend lists are those a mirrored Friends table gives is
      symmetric. */
  lemma LoadedModelSymmetric(model: SocialNetworkModel, rows: seq<UserRow>, fr: seq<FriendRow>)
    requires |model.users| == |rows| && Distinct(model.users) && Mirrored(rows, fr)
    requires forall i :: 0 <= i < |rows| ==> model.users[i].friends == Resolve(model.users, FriendTargets(rows, fr, i))
    ensures model.FriendsSymmetric()
  {
    var us := model.users;
    forall i, j | 0 <= i < |us| && 0 <= j < |us|
      ensures multiset(us[i].friends)[us[j]] == multiset(us[j].friends)[us[i]]
    {
      LoadedSymmetric(us, rows, fr, i, j);
    }
  }

  /** The Users loop of load_model. */
  method LoadUsers(userRows: seq<UserRow>) returns (model: SocialNetworkModel)
    ensures fresh(model) && |model.users| == |userRows| && Distinct(model.users)
    ensures forall i :: 0 <= i < |userRows| ==>
              fresh(model.users[i]) && BuiltFrom(model.users[i], userRows[i]) && model.users[i].dbId == Some(userRows[i].id)
    ensures forall i :: 0 <= i < |userRows| ==> model.users[i].friends == [] && model.users[i].posts == []
  {
    model := new SocialNetworkModel();
    for k := 0 to |userRows|
      invariant fresh(model) && |model.users| == k && Distinct(model.users)
      invariant forall i :: 0 <= i < k ==>
                fresh(model.users[i]) && BuiltFrom(model.users[i], userRows[i]) && model.users[i].dbId == Some(userRows[i].id)
      invariant forall i :: 0 <= i < k ==> model.users[i].friends == [] && model.users[i].posts == []
    {
      var row := userRows[k];
      var u := new User(row.firstName, row.lastName, row.job, row.favoriteAlgorithm, Some(row.id));
      model.users := model.users + [u];
    }
  }

  /** The user a Friends row's User_2 designates, null for an unknown id. */
  function Target(us: seq<User>, rows: seq<UserRow>, id: int): User?
    requires |us| == |rows|
  {
    match RowIndex(rows, id) case None => null case Some(j) => us[j]
  }

  lemma PrefixStep<T>(s: seq<T>, k: nat)
    requires k < |s|
    ensures s[..k + 1] == s[..k] + [s[k]]
  {
  }

  /** lists[i] is the friend list the Friends rows fr give to user i. */
  predicate FriendListsFrom(us: seq<User>, rows: seq<UserRow>, fr: seq<FriendRow>, lists: seq<seq<User?>>) {
    |us| == |rows| == |lists|
    && forall i :: 0 <= i < |us| ==> lists[i] == Resolve(us, FriendTargets(rows, fr, i))
  }

  /** lists[i] is the list of posts the Posts rows pr give to user i. */
  predicate PostListsFrom(rows: seq<UserRow>, pr: seq<PostRow>, lists: seq<seq<Post>>) {
    |rows| == |lists|
    && forall i :: 0 <= i < |rows| ==> lists[i] == PostsOf(rows, pr, i)
  }

  /** One more Friends row appends its target to its owner's list only. */
  lemma FriendsStep(us: seq<User>, rows: seq<UserRow>, fr: seq<FriendRow>, f: FriendRow,
                    lists: seq<seq<User?>>, a: nat)
    requires FriendListsFrom(us, rows, fr, lists) && RowIndex(rows, f.user1) == Some(a)
    ensures FriendListsFrom(us, rows, fr + [f], lists[a := lists[a] + [Target(us, rows, f.user2)]])
  {
    var fr' := fr + [f];
    var lists' := lists[a := lists[a] + [Target(us, rows, f.user2)]];
    assert fr'[..|fr'| - 1] == fr;
    forall i | 0 <= i < |us|
      ensures lists'[i] == Resolve(us, FriendTargets(rows, fr', i))
    {
      var t := FriendTargets(rows, fr, i);
      if i == a {
        assert FriendTargets(rows, fr', i) == t + [RowIndex(rows, f.user2)];
        assert (t + [RowIndex(rows, f.user2)])[..|t|] == t;
      } else {
        assert FriendTargets(rows, fr', i) == t;
      }
    }
  }

  /** One more Posts row appends its post to its owner's posts only. */
  lemma PostsStep(rows: seq<UserRow>, pr: seq<PostRow>, p: PostRow, lists: seq<seq<Post>>, a: nat)
    requires PostListsFrom(rows, pr, lists) && RowIndex(rows, p.user) == Some(a)
    ensures PostListsFrom(rows, pr + [p], lists[a := lists[a] + [SocialNetwork.Post(p.text)]])
  {
    assert (pr + [p])[..|pr|] == pr;
  }

  /** The Friends loop of load_model. */
  method LoadFriends(model: SocialNetworkModel, userRows: seq<UserRow>, friendRows: seq<FriendRow>)
    requires |model.users| == |userRows| && Distinct(model.users)
    requires forall i :: 0 <= i < |userRows| ==> model.users[i].dbId == Some(userRows[i].id) && model.users[i].friends == []
    requires forall k :: 0 <= k < |friendRows| ==> RowIndex(userRows, friendRows[k].user1).Some?
    modifies model.users`friends
    ensures forall i :: 0 <= i < |userRows| ==>
              model.users[i].friends == Resolve(model.users, FriendTargets(userRows, friendRows, i))
  {
    var us := model.users;
    ghost var lists: seq<seq<User?>> := seq(|us|, i => []);
    for k := 0 to |friendRows|
      invariant FriendListsFrom(us, userRows, friendRows[..k], lists)
      invariant forall i :: 0 <= i < |us| ==> us[i].friends == lists[i]
    {
      var f := friendRows[k];
      var owner, friend := LookupFriendRow(model, userRows, f);
      ghost var a := RowIndex(userRows, f.user1).value;
      ghost var next := lists[a := lists[a] + [friend]];
      assert FriendListsFrom(us, userRows, friendRows[..k + 1], next) by {
        FriendsStep(us, userRows, friendRows[..k], f, lists, a);
        PrefixStep(friendRows, k);
      }
      owner.friends := owner.friends + [friend];
      lists := next;
    }
    assert friendRows[..|friendRows|] == friendRows;
  }

  /** The two lookups of one Friends row: the user the row belongs to, and
      the user it names (null where lookup_user_by_id finds nobody). */
  method LookupFriendRow(model: SocialNetworkModel, userRows: seq<UserRow>, f: FriendRow)
    returns (owner: User, friend: User?)
    requires |model.users| == |userRows|
    requires forall i :: 0 <= i < |userRows| ==> model.users[i].dbId == Some(userRows[i].id)
    requires RowIndex(userRows, f.user1).Some?
    ensures owner == model.users[RowIndex(userRows, f.user1).value]
    ensures friend == Target(model.users, userRows, f.user2)
  {
    IndexByIdOfRows(model.users, userRows, f.user1);
    IndexByIdOfRows(model.users, userRows, f.user2);
    var f1 := model.LookupUserById(Some(f.user1));
    var f2 := model.LookupUserById(Some(f.user2));
    owner := f1.value;
    friend := if f2.Some? then f2.value else null;
  }

  /** The Posts loop of load_model. */
  method LoadPosts(model: SocialNetworkModel, userRows: seq<UserRow>, postRows: seq<PostRow>)
    requires |model.users| == |userRows| && Distinct(model.users)
    requires forall i :: 0 <= i < |userRows| ==> model.users[i].dbId == Some(userRows[i].id) && model.users[i].posts == []
    requires forall k :: 0 <= k < |postRows| ==> RowIndex(userRows, postRows[k].user).Some?
    modifies model.users`posts
    ensures forall i :: 0 <= i < |userRows| ==> model.users[i].posts == PostsOf(userRows, postRows, i)
  {
    var us := model.users;
    ghost var lists: seq<seq<Post>> := seq(|us|, i => []);
    for k := 0 to |postRows|
      invariant PostListsFrom(userRows, postRows[..k], lists)
      invariant forall i :: 0 <= i < |us| ==> us[i].posts == lists[i]
    {
      var p := postRows[k];
      IndexByIdOfRows(us, userRows, p.user);
      var user := model.LookupUserById(Some(p.user));
      ghost var a := RowIndex(userRows, p.user).value;
      ghost var next := lists[a := lists[a] + [SocialNetwork.Post(p.text)]];
      assert PostListsFrom(userRows, postRows[..k + 1], next) by {
        PostsStep(userRows, postRows[..k], p, lists, a);
        PrefixStep(postRows, k);
      }
      user.value.posts := user.value.posts + [SocialNetwork.Post(p.text)];
      lists := next;
    }
    assert postRows[..|postRows|] == postRows;
  }
}
