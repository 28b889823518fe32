/**
 * The mailing list of src/utils/subscribers.js: a file holding the list of
 * subscribed addresses, read whole and rewritten whole by each operation,
 * and the address-shape test the subscribe route applies first.
 */
module Subscribers {
  import opened Wrappers
  import opened Seqs
  import opened Text

  // ---- isValidEmail: /^[^\s@]+@[^\s@]+\.[^\s@]+$/ ----

  /** A character of the class `[^\s@]`. */
  predicate Plain(c: char) {
    !IsSpace(c) && c != '@'
  }

  /** A string matching `[^\s@]+`. */
  predicate PlainRun(s: string) {
    |s| > 0 && forall k :: 0 <= k < |s| ==> Plain(s[k])
  }

  /**
   * The three runs of the pattern, with `e[i]` the `@` and `e[j]` the dot
   * between the last two runs.
   */
  predicate SplitsAsEmail(e: string, i: int, j: int) {
    && 0 < i < j < |e| - 1 && e[i] == '@' && e[j] == '.'
    && PlainRun(e[..i]) && PlainRun(e[i + 1..j]) && PlainRun(e[j + 1..])
  }

  /** `e` matches the pattern: some choice of `@` and dot splits it into three runs. */
  ghost predicate MatchesEmailPattern(e: string) {
    exists i, j :: SplitsAsEmail(e, i, j)
  }

  /** The position of the first `c` in `s`. */
  function IndexOf(s: string, c: char): (r: Option<nat>)
    ensures r.None? ==> c !in s
    ensures r.Some? ==> r.value < |s| && s[r.value] == c && c !in s[..r.value]
    decreases |s|
  {
    if s == [] then None
    else if s[0] == c then Some(0)
    else
      match IndexOf(s[1..], c)
      case None => None
      case Some(k) =>
        assert s[..k + 1] == [s[0]] + s[1..][..k];
        Some(k + 1)
  }

  /**
   * `isValidEmail`, read character by character: a non-empty local part
   * before the first `@` without white space, and after it a domain with no
   * white space and no further `@` that has a dot neither first nor last.
   */
  predicate IsValidEmail(email: string)
    ensures IsValidEmail(email) ==> |email| >= 5 && '@' in email
    ensures IsValidEmail(email) ==> forall k :: 0 <= k < |email| ==> !IsSpace(email[k])
  {
    match IndexOf(email, '@')
    case None => false
    case Some(at) =>
      && PlainRun(email[..at])
      && (forall k :: at < k < |email| ==> Plain(email[k]))
      && exists k :: at + 1 < k < |email| - 1 && email[k] == '.'
  }

  /** The scan accepts exactly the strings the regular expression matches. */
  lemma IsValidEmailMatchesPattern(email: string)
    ensures IsValidEmail(email) <==> MatchesEmailPattern(email)
  {
    var first := IndexOf(email, '@');
    if IsValidEmail(email) {
      var at := first.value;
      var k :| at + 1 < k < |email| - 1 && email[k] == '.';
      assert SplitsAsEmail(email, at, k);
    }
    if MatchesEmailPattern(email) {
      var i, j :| SplitsAsEmail(email, i, j);
      assert forall m :: 0 <= m < i ==> email[m] != '@' by {
        assert forall m :: 0 <= m < i ==> email[..i][m] == email[m];
      }
      assert email[i] in email;
      var at := first.value;
      assert forall m :: 0 <= m < at ==> email[m] != '@' by {
        assert forall m :: 0 <= m < at ==> email[..at][m] == email[m];
      }
      assert at == i;
      forall k | i < k < |email| ensures Plain(email[k]) {
        if k < j {
          assert email[i + 1..j][k - i - 1] == email[k];
        } else if k > j {
          assert email[j + 1..][k - j - 1] == email[k];
        }
      }
    }
  }

  // ---- the stored list ----

  /** The subscriber file: `None` while it does not exist, otherwise the addresses it holds. */
  type SubscriberFile = Option<seq<string>>

  /** What reading the file gives once it is made to exist: a missing file is created holding `[]`. */
  function Stored(file: SubscriberFile): seq<string> {
    if file.Some? then file.value else []
  }

  function Other(email: string): string -> bool {
    (sub: string) => sub != email
  }

  /** `subscribers.filter(sub => sub !== email)`: every exact occurrence of `email` removed, the rest in order. */
  function Without(list: seq<string>, email: string): (r: seq<string>)
    ensures forall x :: x in r <==> x in list && x != email
    ensures Subsequence(r, list)
    ensures forall x :: multiset(r)[x] == if x == email then 0 else multiset(list)[x]
  {
    FilterSubsequence(list, Other(email));
    FilterCounts(list, Other(email));
    Filter(list, Other(email))
  }

  /** The removal test of the source, "nothing was filtered out", holds exactly when the address is absent. */
  lemma WithoutKeepsLengthIffAbsent(list: seq<string>, email: string)
    ensures |Without(list, email)| == |list| <==> email !in list
  {
    FilterKeepsLength(list, Other(email));
  }

  /** Removing an address the list does not hold leaves the list as it is. */
  lemma WithoutAbsent(list: seq<string>, email: string)
    requires email !in list
    ensures Without(list, email) == list
  {
    FilterKeepsAll(list, Other(email));
  }

  /** Subscribing a new address and then unsubscribing it restores the list. */
  lemma AddThenRemoveRestores(list: seq<string>, email: string)
    requires email !in list
    ensures Without(list + [email], email) == list
  {
    FilterAppend(list, [email], Other(email));
    FilterKeepsAll(list, Other(email));
    FilterSingle(email, Other(email));
  }

  /** Appending an absent address keeps the list free of repeats. */
  lemma AppendAbsentKeepsNoDuplicates(list: seq<string>, email: string)
    requires NoDuplicates(list) && email !in list
    ensures NoDuplicates(list + [email])
  {
    var r := list + [email];
    forall i, j | 0 <= i < j < |r| ensures r[i] != r[j] {
      if j == |list| {
        assert r[i] == list[i];
      }
    }
  }

  /** Removal keeps the list free of repeats. */
  lemma WithoutKeepsNoDuplicates(list: seq<string>, email: string)
    requires NoDuplicates(list)
    ensures NoDuplicates(Without(list, email))
  {
    FilterKeepsNoDuplicates(list, Other(email));
  }

  /**
   * The subscriber file and the three exported operations on it. Each
   * operation first makes the file exist, then reads it whole, and writes
   * it whole when it changes the list.
   */
  class SubscriberStore {
    var file: SubscriberFile

    /** No address is stored twice. */
    ghost predicate Valid()
      reads this
    {
      NoDuplicates(Stored(file))
    }

    constructor(file: SubscriberFile)
      ensures this.file == file
    {
      this.file := file;
    }

    /** `getSubscribers`: the stored addresses; a missing file is first created empty. */
    method GetSubscribers() returns (subscribers: seq<string>)
      modifies this
      ensures subscribers == Stored(old(file))
      ensures file == Some(subscribers)
    {
      if file.None? {
        file := Some([]);
      }
      subscribers := file.value;
    }

    /** `addSubscriber`: appends an absent address and rewrites the file; rejects a present one. */
    method AddSubscriber(email: string) returns (success: bool, message: string)
      modifies this
      ensures success <==> email !in Stored(old(file))
      ensures success ==> file == Some(Stored(old(file)) + [email]) && message == "Subscribed successfully"
      ensures !success ==> file == Some(Stored(old(file))) && message == "Already subscribed"
      ensures old(Valid()) ==> Valid()
    {
      var subscribers := GetSubscribers();
      if email in subscribers {
        return false, "Already subscribed";
      }
      if NoDuplicates(subscribers) {
        AppendAbsentKeepsNoDuplicates(subscribers, email);
      }
      subscribers := subscribers + [email];
      file := Some(subscribers);
      success, message := true, "Subscribed successfully";
    }

    /** `removeSubscriber`: rewrites the file without the address; rejects an address not stored. */
    method RemoveSubscriber(email: string) returns (success: bool, message: string)
      modifies this
      ensures success <==> email in Stored(old(file))
      ensures success ==> file == Some(Without(Stored(old(file)), email)) && message == "Unsubscribed successfully"
      ensures !success ==> file == Some(Stored(old(file))) && message == "Email not found"
      ensures old(Valid()) ==> Valid()
    {
      var subscribers := GetSubscribers();
      var filtered := Without(subscribers, email);
      WithoutKeepsLengthIffAbsent(subscribers, email);
      if |filtered| == |subscribers| {
        return false, "Email not found";
      }
      if NoDuplicates(subscribers) {
        WithoutKeepsNoDuplicates(subscribers, email);
      }
      file := Some(filtered);
      success, message := true, "Unsubscribed successfully";
    }
  }
}
