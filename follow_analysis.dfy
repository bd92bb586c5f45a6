/** The follow-relationship functions of csv_parser.py: the single-export
    classifier `analyze_follow_status` and the two cross-export reconcilers
    `find_non_followers` and `find_fans`. */
module FollowAnalysis {
  import opened AsciiText
  import opened Comprehensions
  import opened CsvParser

  /** The buckets `analyze_follow_status` returns. `mutual` is the same list
      as `youFollowBack`, and `fans` the same list as `youDontFollowBack`. */
  datatype FollowStatus = FollowStatus(
    followers: seq<Record>,
    youFollowBack: seq<Record>,
    youDontFollowBack: seq<Record>,
    mutual: seq<Record>,
    fans: seq<Record>)

  /** Classifies one export by its `followed_by_you` flag. Every record is a
      follower; those flagged `YES` are followed back, those flagged `NO` are
      not, and a record with any other flag is in neither list. The two
      lists are as long as the metadata's two follow counts. */
  function AnalyzeFollowStatus(records: seq<Record>): (s: FollowStatus)
    ensures s.followers == records
    ensures s.mutual == s.youFollowBack && s.fans == s.youDontFollowBack
    ensures forall r :: r in s.youFollowBack <==> r in records && r.followedByYou == "YES"
    ensures forall r :: r in s.youDontFollowBack <==> r in records && r.followedByYou == "NO"
    ensures forall r :: r in s.youFollowBack ==> r !in s.youDontFollowBack
    ensures |s.youFollowBack| == Summarize(records).followingBack
    ensures |s.youDontFollowBack| == Summarize(records).notFollowingBack
  {
    SelectLength(records, FollowsBack);
    SelectLength(records, NotFollowedBack);
    var youFollow := Select(records, FollowsBack);
    var youDontFollow := Select(records, NotFollowedBack);
    FollowStatus(records, youFollow, youDontFollow, youFollow, youDontFollow)
  }

  /** The classifier is a stable filter: classifying a concatenation
      classifies each part and keeps the parts in order. */
  lemma AnalyzeAppend(a: seq<Record>, b: seq<Record>)
    ensures AnalyzeFollowStatus(a + b).youFollowBack
            == AnalyzeFollowStatus(a).youFollowBack + AnalyzeFollowStatus(b).youFollowBack
    ensures AnalyzeFollowStatus(a + b).youDontFollowBack
            == AnalyzeFollowStatus(a).youDontFollowBack + AnalyzeFollowStatus(b).youDontFollowBack
  {
    SelectAppend(a, b, FollowsBack);
    SelectAppend(a, b, NotFollowedBack);
  }

  /** The identity key of a record: its username, lower-cased. */
  function Key(r: Record): string {
    Lower(r.username)
  }

  /** `{r['username'].lower() for r in records}`. */
  function UsernameKeys(records: seq<Record>): (keys: set<string>)
    ensures forall r :: r in records ==> Key(r) in keys
    ensures forall k :: k in keys ==> exists r :: r in records && Key(r) == k
  {
    set r | r in records :: Key(r)
  }

  /** The records of `records` whose key is not a key of `others`, in order. */
  function Unmatched(records: seq<Record>, others: seq<Record>): seq<Record> {
    Select(records, KeyNotIn(UsernameKeys(others)))
  }

  /** The test `r['username'].lower() not in keys`. */
  function KeyNotIn(keys: set<string>): Record -> bool {
    r => Key(r) !in keys
  }

  /** `find_non_followers`: the accounts followed that do not follow back,
      that is the following records whose username matches, ignoring case,
      no follower's username. */
  function FindNonFollowers(followers: seq<Record>, following: seq<Record>): (r: seq<Record>)
    ensures |r| <= |following|
    ensures forall x :: x in r <==> x in following && forall f :: f in followers ==> Key(f) != Key(x)
  {
    Unmatched(following, followers)
  }

  /** `find_fans`: the followers not followed back, that is the follower
      records whose username matches, ignoring case, no followed username. */
  function FindFans(followers: seq<Record>, following: seq<Record>): (r: seq<Record>)
    ensures |r| <= |followers|
    ensures forall x :: x in r <==> x in followers && forall g :: g in following ==> Key(g) != Key(x)
  {
    Unmatched(followers, following)
  }

  /** With no followers, every followed account is a non-follower. */
  lemma NonFollowersWithoutFollowers(following: seq<Record>)
    ensures FindNonFollowers([], following) == following
  {
    SelectAll(following, KeyNotIn(UsernameKeys([])));
  }

  /** With nothing followed, every follower is a fan. */
  lemma FansWithoutFollowing(followers: seq<Record>)
    ensures FindFans(followers, []) == followers
  {
    SelectAll(followers, KeyNotIn(UsernameKeys([])));
  }

  /** Both reconcilers keep order: the result for a concatenation is the
      result for each part, in order. */
  lemma NonFollowersAppend(followers: seq<Record>, a: seq<Record>, b: seq<Record>)
    ensures FindNonFollowers(followers, a + b)
            == FindNonFollowers(followers, a) + FindNonFollowers(followers, b)
  {
    SelectAppend(a, b, KeyNotIn(UsernameKeys(followers)));
  }

  lemma FansAppend(a: seq<Record>, b: seq<Record>, following: seq<Record>)
    ensures FindFans(a + b, following) == FindFans(a, following) + FindFans(b, following)
  {
    SelectAppend(a, b, KeyNotIn(UsernameKeys(following)));
  }

  /** The record with only a username, as in the reconciliation example. */
  function Named(username: string): Record {
    Record("", username, "", "", "", "")
  }

  /** Followers `alice`, `bob` and followed `ALICE`, `carol`: `carol` is the
      one followed account that does not follow back. */
  lemma NonFollowersExample()
    ensures FindNonFollowers([Named("alice"), Named("bob")], [Named("ALICE"), Named("carol")])
            == [Named("carol")]
  {
    ExampleKeys();
    NonFollowersOfPairs(Named("alice"), Named("bob"), Named("ALICE"), Named("carol"));
  }

  /** The same exports: `bob` is the one fan, since `alice` matches `ALICE`
      ignoring case. */
  lemma FansExample()
    ensures FindFans([Named("alice"), Named("bob")], [Named("ALICE"), Named("carol")])
            == [Named("bob")]
  {
    ExampleKeys();
    FansOfPairs(Named("alice"), Named("bob"), Named("ALICE"), Named("carol"));
  }

  lemma ExampleKeys()
    ensures Key(Named("alice")) == Key(Named("ALICE")) == "alice"
    ensures Key(Named("bob")) == "bob" && Key(Named("carol")) == "carol"
  {
    AliceKey();
    BobKey();
    CarolKey();
  }

  lemma AliceKey()
    ensures Key(Named("alice")) == Key(Named("ALICE")) == "alice"
  {
    LowerOfLower("alice");
    LowerOfUpper("ALICE", "alice");
  }

  lemma BobKey()
    ensures Key(Named("bob")) == "bob"
  {
    LowerOfLower("bob");
  }

  lemma CarolKey()
    ensures Key(Named("carol")) == "carol"
  {
    LowerOfLower("carol");
  }

  /** A string of lower-case letters is its own lower-case form. */
  lemma LowerOfLower(s: string)
    requires forall i :: 0 <= i < |s| ==> IsLower(s[i])
    ensures Lower(s) == s
  {
    LowerFixed(s);
  }

  /** `u` is the upper-case spelling of the lower-case `s`. */
  lemma LowerOfUpper(u: string, s: string)
    requires |u| == |s|
    requires forall i :: 0 <= i < |s| ==> IsLower(s[i]) && u[i] as int == s[i] as int - 32
    ensures Lower(u) == s
  {
  }

  /** Two followers `a`, `b` and two followed `c`, `d`, where only `a` and
      `c` share a key: `d` is the one non-follower. */
  lemma NonFollowersOfPairs(a: Record, b: Record, c: Record, d: Record)
    requires Key(a) == Key(c) && Key(d) != Key(a) && Key(d) != Key(b)
    ensures FindNonFollowers([a, b], [c, d]) == [d]
  {
    KeysOfPair(a, b);
    SelectPair(c, d, KeyNotIn(UsernameKeys([a, b])));
  }

  /** The same exports seen from the followers: `b` is the one fan. */
  lemma FansOfPairs(a: Record, b: Record, c: Record, d: Record)
    requires Key(a) == Key(c) && Key(b) != Key(c) && Key(b) != Key(d)
    ensures FindFans([a, b], [c, d]) == [b]
  {
    KeysOfPair(c, d);
    SelectPair(a, b, KeyNotIn(UsernameKeys([c, d])));
  }

  lemma KeysOfPair(a: Record, b: Record)
    ensures UsernameKeys([a, b]) == {Key(a), Key(b)}
  {
    assert a in [a, b] && b in [a, b];
  }

  lemma SelectPair(a: Record, b: Record, keep: Record -> bool)
    ensures Select([a, b], keep) == (if keep(a) then [a] else []) + (if keep(b) then [b] else [])
  {
    assert [a, b][1..] == [b];
  }
}
