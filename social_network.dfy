/**
 * The in-memory social network (inclass/relational_dbs/the_social_network.py).
 *
 * A SocialNetworkModel keeps a list of User objects.  Each user has a name,
 * a job and a favourite algorithm, fixed at construction, and two lists that
 * grow: the posts the user wrote and the users the user is friends with.
 * Users are added only under a first and last name not yet taken, so names
 * stay unique; friendships are recorded in both users' lists at once, so
 * "b appears in a's list as often as a appears in b's" holds throughout.
 */
module SocialNetwork {
  import opened Wrappers

  /** A post never changes after it is made, so it is a value. */
  datatype Post = Post(text: string)

  class User {
    const firstName: string
    const lastName: string
    const job: string
    const favoriteAlgorithm: string
    var posts: seq<Post>
    var friends: seq<User>

    constructor (firstName: string, lastName: string, job: string, favoriteAlgorithm: string)
      ensures this.firstName == firstName && this.lastName == lastName
      ensures this.job == job && this.favoriteAlgorithm == favoriteAlgorithm
      ensures posts == [] && friends == []
    {
      this.firstName := firstName;
      this.lastName := lastName;
      this.job := job;
      this.favoriteAlgorithm := favoriteAlgorithm;
      posts := [];
      friends := [];
    }

    /** The text __str__ produces: a header line, "Posts:" with one indented
        line per post, then "Friends:" with one indented line per friend. */
    function Text(): string
      reads this
    {
      Header(firstName, lastName, job, favoriteAlgorithm) + "Posts:\n" + PostsText(posts)
      + "Friends:" + FriendsText(friends)
    }

    /** __str__, accumulating the text in two loops. */
    method ToString() returns (s: string)
      ensures s == Text()
    {
      s := Header(firstName, lastName, job, favoriteAlgorithm);
      s := s + "Posts:\n";
      var start := s;
      for i := 0 to |posts|
        invariant s == start + PostsText(posts[..i])
      {
        assert posts[..i + 1][..i] == posts[..i];
        s := s + "  " + posts[i].text + "\n";
      }
      assert posts[..|posts|] == posts;
      s := s + "Friends:";
      start := s;
      for i := 0 to |friends|
        invariant s == start + FriendsText(friends[..i])
      {
        assert friends[..i + 1][..i] == friends[..i];
        s := s + "\n  " + friends[i].firstName + " " + friends[i].lastName;
      }
      assert friends[..|friends|] == friends;
    }
  }

  function Header(firstName: string, lastName: string, job: string, favoriteAlgorithm: string): string {
    firstName + " " + lastName + " (" + job + ") really likes " + favoriteAlgorithm + "\n"
  }

  /** "  text\n" for every post, in order. */
  function PostsText(ps: seq<Post>): string {
    if ps == [] then "" else PostsText(ps[..|ps| - 1]) + "  " + ps[|ps| - 1].text + "\n"
  }

  /** "\n  first last" for every friend, in order. */
  function FriendsText(fs: seq<User>): string {
    if fs == [] then "" else FriendsText(fs[..|fs| - 1]) + "\n  " + fs[|fs| - 1].firstName + " " + fs[|fs| - 1].lastName
  }

  /* ---------------------------------------------------------------------
     Line structure of the text
     --------------------------------------------------------------------- */

  function CountNewlines(s: string): (n: nat)
    ensures n <= |s|
  {
    if s == [] then 0 else CountNewlines(s[..|s| - 1]) + (if s[|s| - 1] == '\n' then 1 else 0)
  }

  predicate NoNewline(s: string) {
    forall i :: 0 <= i < |s| ==> s[i] != '\n'
  }

  lemma {:induction false} CountNewlinesConcat(a: string, b: string)
    ensures CountNewlines(a + b) == CountNewlines(a) + CountNewlines(b)
    decreases |b|
  {
    if b != [] {
      assert (a + b)[..|a + b| - 1] == a + b[..|b| - 1];
      CountNewlinesConcat(a, b[..|b| - 1]);
    } else {
      assert a + b == a;
    }
  }

  lemma {:induction false} CountNewlinesNone(s: string)
    requires NoNewline(s)
    ensures CountNewlines(s) == 0
  {
    if s != [] {
      CountNewlinesNone(s[..|s| - 1]);
    }
  }

  lemma {:induction false} PostsTextLines(ps: seq<Post>)
    requires forall k :: 0 <= k < |ps| ==> NoNewline(ps[k].text)
    ensures CountNewlines(PostsText(ps)) == |ps|
  {
    if ps != [] {
      var init := ps[..|ps| - 1];
      PostsTextLines(init);
      CountNewlinesNone(ps[|ps| - 1].text);
      CountNewlinesConcat(PostsText(init) + "  " + ps[|ps| - 1].text, "\n");
      CountNewlinesConcat(PostsText(init) + "  ", ps[|ps| - 1].text);
      CountNewlinesConcat(PostsText(init), "  ");
    }
  }

  lemma {:induction false} FriendsTextLines(fs: seq<User>)
    requires forall k :: 0 <= k < |fs| ==> NoNewline(fs[k].firstName) && NoNewline(fs[k].lastName)
    ensures CountNewlines(FriendsText(fs)) == |fs|
  {
    if fs != [] {
      var init, f := fs[..|fs| - 1], fs[|fs| - 1];
      FriendsTextLines(init);
      CountNewlinesNone(f.firstName);
      CountNewlinesNone(f.lastName);
      CountNewlinesConcat(FriendsText(init) + "\n  " + f.firstName + " ", f.lastName);
      CountNewlinesConcat(FriendsText(init) + "\n  " + f.firstName, " ");
      CountNewlinesConcat(FriendsText(init) + "\n  ", f.firstName);
      CountNewlinesConcat(FriendsText(init), "\n  ");
    }
  }

  /** When no field contains a line break, the text has one line for the
      header, one for "Posts:", one per post and one per friend ("Friends:"
      and the last friend end without a line break). */
  lemma TextLines(u: User)
    requires NoNewline(u.firstName) && NoNewline(u.lastName)
    requires NoNewline(u.job) && NoNewline(u.favoriteAlgorithm)
    requires forall k :: 0 <= k < |u.posts| ==> NoNewline(u.posts[k].text)
    requires forall k :: 0 <= k < |u.friends| ==> NoNewline(u.friends[k].firstName) && NoNewline(u.friends[k].lastName)
    ensures CountNewlines(u.Text()) == 2 + |u.posts| + |u.friends|
  {
    var header := Header(u.firstName, u.lastName, u.job, u.favoriteAlgorithm);
    var body := u.firstName + " " + u.lastName + " (" + u.job + ") really likes " + u.favoriteAlgorithm;
    assert NoNewline(body);
    assert header == body + "\n";
    CountNewlinesNone(body);
    CountNewlinesConcat(body, "\n");
    assert CountNewlines("\n") == 1;
    assert CountNewlines("Posts:\n") == 1 by {
      assert "Posts:" + "\n" == "Posts:\n";
      CountNewlinesConcat("Posts:", "\n");
      CountNewlinesNone("Posts:");
    }
    CountNewlinesNone("Friends:");
    PostsTextLines(u.posts);
    FriendsTextLines(u.friends);
    CountNewlinesConcat(header + "Posts:\n" + PostsText(u.posts) + "Friends:", FriendsText(u.friends));
    CountNewlinesConcat(header + "Posts:\n" + PostsText(u.posts), "Friends:");
    CountNewlinesConcat(header + "Posts:\n", PostsText(u.posts));
    CountNewlinesConcat(header, "Posts:\n");
  }

  /* ---------------------------------------------------------------------
     Finding users by name
     --------------------------------------------------------------------- */

  predicate HasName(u: User, firstName: string, lastName: string) {
    u.firstName == firstName && u.lastName == lastName
  }

  /** No two entries of the list share a first and last name. */
  predicate UniqueNames(us: seq<User>) {
    forall i, j :: 0 <= i < j < |us| ==> !(us[i].firstName == us[j].firstName && us[i].lastName == us[j].lastName)
  }

  /** The first user in list order with the given names, or None. */
  function Find(us: seq<User>, firstName: string, lastName: string): (r: Option<User>)
    ensures r.Some? ==> r.value in us && HasName(r.value, firstName, lastName)
    ensures r.None? <==> forall k :: 0 <= k < |us| ==> !HasName(us[k], firstName, lastName)
  {
    if us == [] then None
    else if HasName(us[0], firstName, lastName) then Some(us[0])
    else Find(us[1..], firstName, lastName)
  }

  /** Find returns the entry at the first index whose names match. */
  lemma {:induction false} FindFirst(us: seq<User>, firstName: string, lastName: string, i: nat)
    requires i < |us| && HasName(us[i], firstName, lastName)
    requires forall k :: 0 <= k < i ==> !HasName(us[k], firstName, lastName)
    ensures Find(us, firstName, lastName) == Some(us[i])
  {
    if i > 0 {
      FindFirst(us[1..], firstName, lastName, i - 1);
    }
  }

  /** With unique names, every entry is found under its own names. */
  lemma FindUnique(us: seq<User>, i: nat)
    requires UniqueNames(us) && i < |us|
    ensures Find(us, us[i].firstName, us[i].lastName) == Some(us[i])
  {
    FindFirst(us, us[i].firstName, us[i].lastName, i);
  }

  /** A user appended under fresh names is found under them. */
  lemma FindAppended(us: seq<User>, u: User)
    requires Find(us, u.firstName, u.lastName).None?
    ensures Find(us + [u], u.firstName, u.lastName) == Some(u)
    ensures UniqueNames(us) ==> UniqueNames(us + [u])
  {
    FindFirst(us + [u], u.firstName, u.lastName, |us|);
  }

  /* ---------------------------------------------------------------------
     The model
     --------------------------------------------------------------------- */

  /** How many times x occurs in s. */
  function Occurrences(s: seq<User>, x: User): nat {
    multiset(s)[x]
  }

  /** What make_friends(user1, user2) appends to the friend list of x. */
  function Added(x: User, user1: User, user2: User): seq<User> {
    (if x == user1 then [user2] else []) + (if x == user2 then [user1] else [])
  }

  lemma OccurrencesAdded(s: seq<User>, x: User, y: User, user1: User, user2: User)
    ensures Occurrences(s + Added(x, user1, user2), y)
            == Occurrences(s, y) + (if x == user1 && y == user2 then 1 else 0) + (if x == user2 && y == user1 then 1 else 0)
  {
    assert multiset(s + Added(x, user1, user2)) == multiset(s) + multiset(Added(x, user1, user2));
  }

  /** The friend list of every user, in list order. */
  function FriendLists(us: seq<User>): (lists: seq<seq<User>>)
    reads us
    ensures |lists| == |us| && forall i {:trigger lists[i]} :: 0 <= i < |us| ==> lists[i] == us[i].friends
  {
    if us == [] then [] else FriendLists(us[..|us| - 1]) + [us[|us| - 1].friends]
  }

  lemma FriendListsAppend(us: seq<User>, u: User)
    ensures FriendLists(us + [u]) == FriendLists(us) + [u.friends]
  {
    assert (us + [u])[..|us|] == us;
  }

  /** lists[i] is the friend list of us[i], and for every two users each
      appears in the other's list equally often. */
  predicate Symmetric(us: seq<User>, lists: seq<seq<User>>)
    requires |lists| == |us|
  {
    forall i, j :: 0 <= i < |us| && 0 <= j < |us| ==>
      Occurrences(lists[i], us[j]) == Occurrences(lists[j], us[i])
  }

  /** Appending what make_friends appends keeps the lists symmetric. */
  lemma SymmetricAfterAdded(us: seq<User>, before: seq<seq<User>>, after: seq<seq<User>>, user1: User, user2: User)
    requires |before| == |us| == |after|
    requires forall i :: 0 <= i < |us| ==> after[i] == before[i] + Added(us[i], user1, user2)
    ensures Symmetric(us, before) ==> Symmetric(us, after)
  {
    if Symmetric(us, before) {
      forall i, j | 0 <= i < |us| && 0 <= j < |us|
        ensures Occurrences(after[i], us[j]) == Occurrences(after[j], us[i])
      {
        OccurrencesAdded(before[i], us[i], us[j], user1, user2);
        OccurrencesAdded(before[j], us[j], us[i], user1, user2);
      }
    }
  }

  /** Appending a user with no friends, listed by nobody, keeps the lists
      symmetric. */
  lemma SymmetricAfterAppend(us: seq<User>, lists: seq<seq<User>>, u: User, friends: seq<User>)
    requires |lists| == |us| && Symmetric(us, lists)
    requires friends == [] && forall k :: 0 <= k < |us| ==> u !in lists[k]
    ensures Symmetric(us + [u], lists + [friends])
  {
    var us', lists' := us + [u], lists + [friends];
    forall i, j | 0 <= i < |us'| && 0 <= j < |us'|
      ensures Occurrences(lists'[i], us'[j]) == Occurrences(lists'[j], us'[i])
    {
      if i < |us| && j < |us| {
        assert lists'[i] == lists[i] && lists'[j] == lists[j];
      } else if i < |us| {
        assert Occurrences(lists'[i], us'[j]) == 0 by { assert lists'[i] == lists[i]; }
      } else if j < |us| {
        assert Occurrences(lists'[j], us'[i]) == 0 by { assert lists'[j] == lists[j]; }
      }
    }
  }

  /** A user in nobody's friend list is in none of the listed lists. */
  lemma NotListed(us: seq<User>, u: User)
    requires forall k :: 0 <= k < |us| ==> u !in us[k].friends
    ensures forall k :: 0 <= k < |us| ==> u !in FriendLists(us)[k]
  {
  }

  /** A user with no friends, listed by nobody, joins without breaking
      symmetry. */
  lemma SymmetricAfterJoin(us: seq<User>, u: User)
    requires Symmetric(us, FriendLists(us))
    requires u.friends == [] && forall k :: 0 <= k < |us| ==> u !in us[k].friends
    ensures Symmetric(us + [u], FriendLists(us + [u]))
  {
    NotListed(us, u);
    SymmetricAfterAppend(us, FriendLists(us), u, u.friends);
    FriendListsAppend(us, u);
  }

  /** Friend lists are read from the users' own fields only. */
  twostate lemma FriendListsUnchanged(us: seq<User>)
    requires forall k :: 0 <= k < |us| ==> unchanged(us[k])
    ensures FriendLists(us) == old(FriendLists(us))
  {
  }

  class SocialNetworkModel {
    var users: seq<User>

    ghost predicate Valid()
      reads this
    {
      UniqueNames(users)
    }

    /** For every two users of the model, each appears in the other's
        friend list equally often. */
    ghost predicate FriendsSymmetric()
      reads this, users
    {
      Symmetric(users, FriendLists(users))
    }

    constructor ()
      ensures Valid() && FriendsSymmetric()
      ensures users == []
    {
      users := [];
    }

    /** lookup_user: scan the users in order and return the first match. */
    method LookupUser(firstName: string, lastName: string) returns (u: Option<User>)
      ensures u == Find(users, firstName, lastName)
    {
      for i := 0 to |users|
        invariant forall k :: 0 <= k < i ==> !HasName(users[k], firstName, lastName)
      {
        if users[i].firstName == firstName && users[i].lastName == lastName {
          FindFirst(users, firstName, lastName, i);
          return Some(users[i]);
        }
      }
      return None;
    }

    /** add_user: a user whose names are taken is refused (the source prints
        a warning); otherwise the user is appended. */
    method AddUser(user: User)
      modifies this
      ensures old(Valid()) ==> Valid()
      ensures old(Find(users, user.firstName, user.lastName)).Some? ==> users == old(users)
      ensures old(Find(users, user.firstName, user.lastName)).None? ==> users == old(users) + [user]
      ensures Find(users, user.firstName, user.lastName).Some?
      ensures old(Find(users, user.firstName, user.lastName)).None? ==>
                Find(users, user.firstName, user.lastName) == Some(user)
      ensures old(FriendsSymmetric() && user.friends == []
                  && forall k :: 0 <= k < |users| ==> user !in users[k].friends)
              ==> FriendsSymmetric()
    {
      if FriendsSymmetric() && user.friends == []
         && (forall k :: 0 <= k < |users| ==> user !in users[k].friends) {
        SymmetricAfterJoin(users, user);
      }
      var existing := LookupUser(user.firstName, user.lastName);
      if existing != None {
        FriendListsUnchanged(users);
        return;
      }
      FindAppended(users, user);
      users := users + [user];
      FriendListsUnchanged(users);
    }

    /** make_friends: each user is appended to the other's friend list (a
        user befriending itself is appended twice to its own list). */
    method MakeFriends(user1: User, user2: User)
      modifies user1, user2
      ensures user1 != user2 ==> user1.friends == old(user1.friends) + [user2]
      ensures user1 != user2 ==> user2.friends == old(user2.friends) + [user1]
      ensures user1 == user2 ==> user1.friends == old(user1.friends) + [user2, user1]
      ensures user1.posts == old(user1.posts) && user2.posts == old(user2.posts)
      ensures old(FriendsSymmetric()) ==> FriendsSymmetric()
    {
      user1.friends := user1.friends + [user2];
      user2.friends := user2.friends + [user1];
      SymmetricAfterAdded(users, old(FriendLists(users)), FriendLists(users), user1, user2);
    }

    /** post: one post with the text is appended to the user's posts. */
    method AddPost(user: User, text: string)
      modifies user
      ensures user.posts == old(user.posts) + [Post(text)]
      ensures user.friends == old(user.friends)
      ensures old(FriendsSymmetric()) ==> FriendsSymmetric()
    {
      user.posts := user.posts + [Post(text)];
    }
  }
}
