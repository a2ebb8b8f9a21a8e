# Software Design classroom programs, modelled in Dafny

This project models five small Python programs from an introductory
software-design course and proves what they promise.

- **DNA reverse complement** (`dna.dfy`, module `Dna`).
  - `get_complement` pairs A with T and C with G.
  - Two routines compute the reverse complement of a strand. `reverse_complement_1` prepends to a string; `reverse_complement_2` walks the strand backwards into a list and joins it.
  - Both routines are methods proved equal to one specification function, and that function is proved to be an involution.
- **Calendar dates** (`date.dfy`, module `Dates`).
  - A `Date` object holds a month, a day and a year.
  - `is_before` compares dates, `__str__` renders them as `"March, 26th 2015"`, `increment_year` advances the year and `is_leap_year` applies the Gregorian rule.
  - The rendering is kept as the source writes it, so day 11 prints as `11st`.
  - A parser for that text is defined so that the rendering can be shown to lose no information.
- **Spell checking** (`spell_checker.dfy`, module `SpellChecker`).
  - A dictionary is built from every `skip_factor`-th line of a word file, with trailing whitespace stripped, either as a list or as a set.
  - A word is then checked by three methods: a linear scan, set membership, or `bisect_left` on the sorted list.
  - The three are proved to agree on every word whenever the stripped lines are sorted.
- **In-memory social network** (`social_network.dfy`, module `SocialNetwork`).
  - A `SocialNetworkModel` holds a list of `User` objects. Each user has posts and friends.
  - Users are added under unique first and last names. Friendships are appended to both users' lists.
  - Two invariants are proved. Names stay unique across every operation. Friend lists stay symmetric (each user appears in another's list as often as the other appears in theirs) under `make_friends` and `post`, and under `add_user` when the new user has no friends and is in nobody's list.
  - `__str__` is modelled by its two accumulation loops.
- **Database-backed social network** (`social_network_db.dfy`, module `SocialNetworkDb`).
  - Same model, except every user carries the id of its row in the `Users` table.
  - `load_model` rebuilds a model from the rows of the `Users`, `Friends` and `Posts` tables. It is proved to produce exactly the users, friend lists and posts the rows describe.
  - It is also proved to produce symmetric friend lists when every `Friends` row is matched by a mirrored row, in whatever order the rows come. The tables `make_friends` writes, starting from the empty table `reset_db` creates, are proved to be of this kind.

`wrappers.dfy` holds the `Option` type used for Python's `None` results.

## Model

| member | source | states |
|---|---|---|
| Dna.Complement | inclass/order_of_growth/dna.py:15-24 | the partner of a base is a base, differs from it and stays within its pair ({A,T} or {C,G}) |
| Dna.ComplementInvolution | inclass/order_of_growth/dna.py:15-24 | complementing twice gives back the base |
| Dna.ReverseComplementAt | inclass/order_of_growth/dna.py:26-40 | position i of the reverse complement is the partner of position len-1-i |
| Dna.ReverseComplementUnique | inclass/order_of_growth/dna.py:26-40 | any string that is positionwise the partner of the mirrored strand is the reverse complement |
| Dna.ReverseComplementInvolution | inclass/order_of_growth/dna.py:26-56 | the reverse complement of the reverse complement is the original strand |
| Dna.ReverseComplementExample1 | inclass/order_of_growth/dna.py:32-33 | the doctest value: ATGCCCGCTTT gives AAAGCGGGCAT |
| Dna.ReverseComplementExample2 | inclass/order_of_growth/dna.py:34-35 | the doctest value: CCGCGTTCA gives TGAACGCGG |
| Dna.ReverseComplement1 | inclass/order_of_growth/dna.py:37-40 | prepending each partner yields the reverse complement of the strand |
| Dna.Join | inclass/order_of_growth/dna.py:56 | the joined string ends with the last part; for one-character parts it is the string of those characters, in order |
| Dna.ReverseComplement2 | inclass/order_of_growth/dna.py:53-56 | walking backwards, appending partners and joining yields the reverse complement of the strand |
| Dna.BothRoutinesAgree | inclass/order_of_growth/dna.py:26-56 | the two routines return the same string, and its reverse complement is the input |
| Dates.IntToString | inclass/oop_practice/solutions/problem1_sol.py:61-64 | %i gives at least one character; a leading minus exactly for negative numbers, and digits otherwise |
| Dates.IntToStringRoundTrip | inclass/oop_practice/solutions/problem1_sol.py:61-64 | the decimal text of any integer (as %i renders it, with a leading minus for negatives) parses back to that integer |
| Dates.MonthName | inclass/oop_practice/solutions/problem1_sol.py:39-50 | every month 1..12 has a name of at least three letters containing no comma |
| Dates.MonthNumber | inclass/oop_practice/solutions/problem1_sol.py:39-50 | an inverse of `month_map` that exists only in the model: a recognised name belongs to the month 1..12 it is returned for |
| Dates.MonthNumberOfName | inclass/oop_practice/solutions/problem1_sol.py:39-50 | the month map is injective: each month's name is recognised as that month |
| Dates.OrdinalSuffix | inclass/oop_practice/solutions/problem1_sol.py:51-60 | the suffix has two letters and is other than "th" exactly for last digits 1, 2 and 3 |
| Dates.Text | inclass/oop_practice/solutions/problem1_sol.py:61-64 | the text begins with the month name and ", ", and holds nothing beyond the two numbers, the two-letter suffix and three separator characters (its length is exactly theirs) |
| Dates.FormatRoundTrip | inclass/oop_practice/solutions/problem1_sol.py:61-64 | the text "Month, DDsuffix YYYY" of any month 1..12, day and year parses back to those three numbers |
| Dates.TextInjective | inclass/oop_practice/solutions/problem1_sol.py:61-64 | two dates with the same text have the same month, day and year |
| Dates.Date.constructor | inclass/oop_practice/solutions/problem1_sol.py:5-15 | the date stores the month, day and year as given, without validation |
| Dates.Date.IsBefore | inclass/oop_practice/solutions/problem1_sol.py:17-30 | true exactly when the year, the month or the day is smaller, each tested on its own |
| Dates.Date.OccursBefore | inclass/oop_practice/solutions/problem1_sol.py:17-19 | calendar order: an earlier year first, then an earlier month, then an earlier day; it implies IsBefore |
| Dates.Date.IncrementYear | inclass/oop_practice/solutions/problem1_sol.py:66-69 | the year grows by one, month and day unchanged, and a leap year is followed by a non-leap year |
| Dates.Date.IsLeapYear | inclass/oop_practice/solutions/problem1_sol.py:71-86 | leap exactly when divisible by 4 and not by 100, unless divisible by 400 |
| Dates.Date.ToString | inclass/oop_practice/solutions/problem1_sol.py:32-64 | the printed text of a date with a month in 1..12 reads back as that date |
| Dates.IsBeforeIrreflexive | inclass/oop_practice/solutions/problem1_sol.py:25-30 | no date is before an equal date, in either direction |
| Dates.IsBeforeExample | inclass/oop_practice/solutions/problem1_sol.py:20-23 | the doctest: 4/20/1981 is before 5/31/1995 |
| Dates.IsBeforeNotAsymmetric | inclass/oop_practice/solutions/problem1_sol.py:25-30 | 1/1/2001 and 2/1/2000 are each before the other as written, while calendar order puts only the second first |
| Dates.OccursBeforeIsStrictTotalOrder | inclass/oop_practice/solutions/problem1_sol.py:17-19 | calendar order is irreflexive, asymmetric, transitive and total on distinct dates |
| Dates.ExampleNumbers | inclass/oop_practice/solutions/problem1_sol.py:61-64 | %i renders 26, 2015, 11 and 2000 as their digits |
| Dates.ToStringExample | inclass/oop_practice/solutions/problem1_sol.py:36-37 | the doctest: Date(3,26,2015) prints as "March, 26th 2015" |
| Dates.ToStringEleventh | inclass/oop_practice/solutions/problem1_sol.py:51-64 | the suffix follows the last digit only: January 11 2000 prints as "January, 11st 2000" |
| Dates.ToStringRoundTrip | inclass/oop_practice/solutions/problem1_sol.py:32-64 | the text starts with the month name, parses back to the date, and distinct dates print differently |
| Dates.LeapYearExamples | inclass/oop_practice/solutions/problem1_sol.py:75-80 | the doctests: 2000 is a leap year, 1999 and 1900 are not |
| Dates.LeapYearPeriod | inclass/oop_practice/solutions/problem1_sol.py:82-86 | years 400 apart are both leap or both not |
| SpellChecker.Less | inclass/order_of_growth/spell_checker.py:17 | Python's `<` on strings: never holds between equal strings; a proper prefix comes first; a smaller first character comes first |
| SpellChecker.LessIsStrictTotalOrder | inclass/order_of_growth/spell_checker.py:17 | the string order bisect_left relies on is irreflexive, asymmetric, transitive and total |
| SpellChecker.LessEqLessTransitive | inclass/order_of_growth/spell_checker.py:17 | a word not after b, with b before c, is before c |
| SpellChecker.BisectLeft | inclass/order_of_growth/spell_checker.py:17 | on a sorted list, the index splits the words before x from the words not before x |
| SpellChecker.BisectIn | inclass/order_of_growth/spell_checker.py:9-18 | on a sorted list, the answer is true exactly when x is in the list |
| SpellChecker.LinearScan | inclass/order_of_growth/spell_checker.py:72-75 | the scan reports true exactly when the word equals some dictionary entry |
| SpellChecker.WordSet | inclass/order_of_growth/spell_checker.py:48 | the set holds exactly the words of the list |
| SpellChecker.RStrip | inclass/order_of_growth/spell_checker.py:31 | the result is a prefix that ends in a non-whitespace character (or is empty), and only whitespace was removed |
| SpellChecker.RStripIdempotent | inclass/order_of_growth/spell_checker.py:31 | stripping twice strips nothing more |
| SpellChecker.StrideCount | inclass/order_of_growth/spell_checker.py:30 | range(0, n, skip) has ceil(n / skip) elements |
| SpellChecker.StrideIndexSelected | inclass/order_of_growth/spell_checker.py:30 | every multiple of skip below n is one of the indices range visits |
| SpellChecker.LoadWordsAsList | inclass/order_of_growth/spell_checker.py:20-33 | the list has ceil(n / skip) entries, and entry k is line k*skip stripped |
| SpellChecker.LoadWordsAsSet | inclass/order_of_growth/spell_checker.py:35-48 | a word is in the set exactly when it is the stripped form of some line at a multiple of skip |
| SpellChecker.StrideSelectionSorted | inclass/order_of_growth/spell_checker.py:104-109 | when the stripped lines are sorted, the list bisect_in receives is sorted |
| SpellChecker.SortedLinesNotSortedAfterStrip | inclass/order_of_growth/spell_checker.py:31 | sorted raw lines need not stay sorted once stripped, so sortedness is required of the stripped lines |
| SpellChecker.CheckWord | inclass/order_of_growth/spell_checker.py:66-109 | the three algorithms give the same answer, true exactly when the word is one of the selected dictionary words |
| SocialNetwork.User.constructor | inclass/relational_dbs/the_social_network.py:40-51 | a new user has the given names, job and algorithm, and no posts or friends |
| SocialNetwork.User.ToString | inclass/relational_dbs/the_social_network.py:53-65 | the two loops accumulate the header, one line per post and one line per friend |
| SocialNetwork.TextLines | inclass/relational_dbs/the_social_network.py:53-65 | with no line breaks in the fields, the text has 2 + posts + friends line breaks: one line per post and per friend |
| SocialNetwork.Find | inclass/relational_dbs/the_social_network.py:29-36 | a found user is in the list under the names; None exactly when nobody has them |
| SocialNetwork.FindFirst | inclass/relational_dbs/the_social_network.py:32-35 | the first index whose names match is the one returned |
| SocialNetwork.FindUnique | inclass/relational_dbs/the_social_network.py:29-36 | with unique names every user is found under its own names |
| SocialNetwork.FindAppended | inclass/relational_dbs/the_social_network.py:15-18 | a user appended under fresh names is found under them, and names stay unique |
| SocialNetwork.SymmetricAfterAdded | inclass/relational_dbs/the_social_network.py:20-23 | the appends make_friends does keep friend lists symmetric |
| SocialNetwork.SymmetricAfterJoin | inclass/relational_dbs/the_social_network.py:15-18 | a user with no friends, listed by nobody, joins without breaking symmetry |
| SocialNetwork.SocialNetworkModel.constructor | inclass/relational_dbs/the_social_network.py:8-9 | a new network is empty, with unique names and symmetric friend lists |
| SocialNetwork.SocialNetworkModel.LookupUser | inclass/relational_dbs/the_social_network.py:29-36 | returns the first user with the names, or None |
| SocialNetwork.SocialNetworkModel.AddUser | inclass/relational_dbs/the_social_network.py:11-18 | a duplicate is refused and changes nothing; otherwise the user is appended; afterwards the user's names are found, names stay unique, and symmetry is kept for a user without friends |
| SocialNetwork.SocialNetworkModel.MakeFriends | inclass/relational_dbs/the_social_network.py:20-23 | each user is appended to the other's list, posts are unchanged, symmetry is preserved |
| SocialNetwork.SocialNetworkModel.AddPost | inclass/relational_dbs/the_social_network.py:25-27 | one post with the text is appended; friend lists and symmetry are unchanged |
| SocialNetworkDb.User.constructor | inclass/relational_dbs/the_social_network_db_finished_version.py:71-85 | a new user has the given fields, the given id (None by default), and no posts or friends |
| SocialNetworkDb.Find | inclass/relational_dbs/the_social_network_db_finished_version.py:54-61 | a found user is in the list under the names; None exactly when nobody has them |
| SocialNetworkDb.FindFirst | inclass/relational_dbs/the_social_network_db_finished_version.py:57-60 | the first index whose names match is the one returned |
| SocialNetworkDb.IndexById | inclass/relational_dbs/the_social_network_db_finished_version.py:63-67 | the index of the first user with the id, or None exactly when no user has it |
| SocialNetworkDb.RowIndex | inclass/relational_dbs/the_social_network_db_finished_version.py:147-153 | the first Users row with the id, or None exactly when no row has it |
| SocialNetworkDb.IndexByIdOfRows | inclass/relational_dbs/the_social_network_db_finished_version.py:147-159 | once one user per row is loaded, searching users by id finds the first row with that id |
| SocialNetworkDb.FriendRowsWritten | inclass/relational_dbs/the_social_network_db_finished_version.py:40-41 | make_friends inserts two rows, the second the mirror of the first |
| SocialNetworkDb.PairedAfterMakeFriends | inclass/relational_dbs/the_social_network_db_finished_version.py:35-44 | a Friends table of adjacent mirrored pairs stays so after make_friends writes |
| SocialNetworkDb.TableAfterPaired | inclass/relational_dbs/the_social_network_db_finished_version.py:122-138 | the table reset_db empties, after any sequence of make_friends calls, consists of adjacent mirrored pairs |
| SocialNetworkDb.CountLinksPaired | inclass/relational_dbs/the_social_network_db_finished_version.py:40-41 | in a table of adjacent mirrored pairs, as many rows lead from i to j as from j to i |
| SocialNetworkDb.PairedMirrored | inclass/relational_dbs/the_social_network_db_finished_version.py:40-41 | a table of adjacent mirrored pairs is mirrored in the order-free sense |
| SocialNetworkDb.InterleavedMirrored | inclass/relational_dbs/the_social_network_db_finished_version.py:155-156 | a table whose mirrored rows are not adjacent is still mirrored, so the load result covers rows in any order |
| SocialNetworkDb.TargetsCount | inclass/relational_dbs/the_social_network_db_finished_version.py:157-160 | the friends loaded for row i name row j once for every row leading from i to j |
| SocialNetworkDb.ResolveCount | inclass/relational_dbs/the_social_network_db_finished_version.py:158-160 | resolving row indices to distinct users preserves how often each occurs |
| SocialNetworkDb.LoadedSymmetric | inclass/relational_dbs/the_social_network_db_finished_version.py:155-160 | friend lists loaded from a mirrored table, rows in any order, are symmetric for each pair of users |
| SocialNetworkDb.SocialNetworkModel.constructor | inclass/relational_dbs/the_social_network_db_finished_version.py:10-12 | a new model is empty, with unique names and symmetric friend lists |
| SocialNetworkDb.SocialNetworkModel.LookupUser | inclass/relational_dbs/the_social_network_db_finished_version.py:54-61 | returns the first user with the names, or None |
| SocialNetworkDb.SocialNetworkModel.LookupUserById | inclass/relational_dbs/the_social_network_db_finished_version.py:63-67 | returns the first user whose id equals the given one, None exactly when there is none |
| SocialNetworkDb.SocialNetworkModel.AddUser | inclass/relational_dbs/the_social_network_db_finished_version.py:14-33 | a duplicate is refused and changes nothing; otherwise the user is appended; names stay unique and are found afterwards |
| SocialNetworkDb.SocialNetworkModel.MakeFriends | inclass/relational_dbs/the_social_network_db_finished_version.py:35-44 | each user is appended to the other's friend list; posts are unchanged |
| SocialNetworkDb.SocialNetworkModel.AddPost | inclass/relational_dbs/the_social_network_db_finished_version.py:46-52 | one post with the text is appended; friends are unchanged |
| SocialNetworkDb.LoadModel | inclass/relational_dbs/the_social_network_db_finished_version.py:140-168 | one fresh user per Users row, in order, with the row's fields and id; each user's friends are the users its Friends rows name (null for unknown ids); its posts are those of its Posts rows, in order; lists are symmetric when every Friends row has a mirrored row, in any order |
| SocialNetworkDb.LoadedModelSymmetric | inclass/relational_dbs/the_social_network_db_finished_version.py:155-160 | a model whose friend lists come from a mirrored table satisfies the symmetry invariant |
| SocialNetworkDb.LoadUsers | inclass/relational_dbs/the_social_network_db_finished_version.py:145-153 | one fresh, distinct user per row, in row order, with the row's fields and id and empty lists |
| SocialNetworkDb.LoadFriends | inclass/relational_dbs/the_social_network_db_finished_version.py:155-160 | each user's friend list becomes the resolved targets of its Friends rows, in row order |
| SocialNetworkDb.LookupFriendRow | inclass/relational_dbs/the_social_network_db_finished_version.py:158-159 | the two id lookups of a Friends row give the owning user and the named user, or null for an unknown id |
| SocialNetworkDb.LoadPosts | inclass/relational_dbs/the_social_network_db_finished_version.py:162-166 | each user's posts become the texts of its Posts rows, in row order |

## Left out

- Files, printing, pickling and MySQL are left out. The word file and the tables are passed in as the lines and rows they would yield. The "duplicate user" and "ignoring posts and friends" messages are not modelled; only their effect on the model (none) is.
- Both social networks are modelled without a connection, so no SQL statement is issued. In the database version, the rows `make_friends` would insert are modelled by `SocialNetworkDb.FriendRowsWritten`, and `reset_db` by the empty table that `SocialNetworkDb.TableAfter` starts from.
- SocialNetworkDb.User.constructor: `dbId` is a constant. The one later assignment, by `add_user` over a connection (source line 32), happens only on the connected path, which is not modelled.
- `save_model`, `load_model` from a pickle, `get_words`, the timing loops and the plots are left out. They are I/O or measurement, not logic.
- The database version's `User.__str__` (source lines 87-99) is the in-memory one and is modelled once, as `SocialNetwork.User.ToString`. A loaded friend list can hold a `None` entry, for a `User_2` id with no user. On that entry `f.first_name` (line 98) raises `AttributeError`; that failure is not modelled.
- SocialNetworkDb.LoadModel: requires every `User_1` and every post's `User` to name a known id. On any other row the source dereferences `None` and fails.
- SocialNetworkDb.SocialNetworkModel.MakeFriends: does not restate the symmetry invariant. It is the same append as the in-memory `MakeFriends`, where it is proved.
- SocialNetwork.SocialNetworkModel.AddUser: keeps friend symmetry only for a user who has no friends and is listed by nobody. A user added with existing friendships can break the invariant, as it can in the source.
- Dna.ReverseComplement1: requires a strand of A, C, G and T only. For any other character `get_complement` returns `None`, and the concatenation raises `TypeError`.
- Dna.ReverseComplement2: the same requirement. `join` raises on the `None` entry.
- Dna.ReverseComplement2: `"".join` is modelled as concatenation of the parts, left to right. Its cost is not modelled.
- Dates.Date.ToString: requires a month in 1..12. For any other month the source's dictionary lookup raises `KeyError`.
- `Dates.ParseDate`, `Dates.ParseDayYear`, `Dates.ParseInt`, `Dates.ParseNat`, `Dates.MonthNumber` and `Dates.IndexOf` have no counterpart in the source. They are inverses defined only to show that the rendering loses no information.
- SpellChecker.RStrip: strips the whitespace of a Python 2 byte string (space, tab, newline, carriage return, vertical tab, form feed). The wider whitespace set of a `unicode` object is not modelled.
- SpellChecker.CheckWord: `lower()` on the checked word is left out, so the word is taken as already lower-cased. The answer per word is modelled; the `num_words_to_check` cut-off and the timing are not.
- The first name, last name, job and favourite algorithm of both `User` classes are constants. In Python they are plain attributes that could be reassigned, but nothing in the source reassigns them.
- `flappy_bird` and the other course exercises are not part of this model.

## Findings

| source | as written | input that shows it | evidently intended | confidence | as-written member | corrected member |
|---|---|---|---|---|---|---|
| inclass/oop_practice/solutions/problem1_sol.py:25-30 | `is_before` returns true when the month or the day is smaller, even when the year is larger | Date(1,1,2001) and Date(2,1,2000): each is_before the other | "true if and only if self occurs before other_date": compare years, then months of equal years, then days of equal months | not executed | Dates.Date.IsBefore, Dates.IsBeforeNotAsymmetric | Dates.Date.OccursBefore, Dates.OccursBeforeIsStrictTotalOrder |
