/**
 * The points ledger (src/app/providers/UserPointsProvider.tsx): one optional
 * local profile holding a name and a point balance that never goes below 0.
 *
 * Persistence to local storage and the ISO timestamps `createdAt` and
 * `lastUpdatedAt` are not modelled.
 */
module UserPointsProvider {
  import opened Wrappers

  /** Points given to a profile the first time a name is entered. */
  const INITIAL_POINTS: int := 100

  /** `login` keeps at most this many characters of the trimmed name. */
  const MAX_NAME_LENGTH: nat := 40

  datatype UserProfile = UserProfile(name: string, points: int)

  /** The characters `String.prototype.trim` removes: ECMAScript white space and line terminators. */
  predicate IsWhitespace(c: char)
  {
    c == '\t' || c == '\U{000B}' || c == '\U{000C}' || c == ' ' || c == '\U{00A0}' || c == '\U{FEFF}' ||
    c == '\U{1680}' || ('\U{2000}' <= c <= '\U{200A}') || c == '\U{202F}' || c == '\U{205F}' || c == '\U{3000}' ||
    c == '\n' || c == '\r' || c == '\U{2028}' || c == '\U{2029}'
  }

  ghost predicate AllWhitespace(s: string)
  {
    forall k :: 0 <= k < |s| ==> IsWhitespace(s[k])
  }

  /** Drops the leading white space. */
  function TrimStart(s: string): string
    decreases |s|
  {
    if |s| > 0 && IsWhitespace(s[0]) then TrimStart(s[1..]) else s
  }

  /** Drops the trailing white space. */
  function TrimEnd(s: string): string
    decreases |s|
  {
    if |s| > 0 && IsWhitespace(s[|s| - 1]) then TrimEnd(s[..|s| - 1]) else s
  }

  /**
   * `name.trim()`: keeps a contiguous slice of the name; everything cut off in
   * front and behind is white space, and the slice neither starts nor ends
   * with white space.
   */
  function Trim(s: string): (r: string)
    ensures exists i, j :: 0 <= i <= j <= |s| && r == s[i..j] && AllWhitespace(s[..i]) && AllWhitespace(s[j..])
    ensures r != [] ==> !IsWhitespace(r[0]) && !IsWhitespace(r[|r| - 1])
  {
    TrimStartSpec(s);
    var u := TrimStart(s);
    var i := |s| - |u|;
    TrimEndSpec(u);
    var j := i + |TrimEnd(u)|;
    assert TrimEnd(u) == s[i..j];
    assert u[|TrimEnd(u)|..] == s[j..];
    assert TrimEnd(u) != [] ==> TrimEnd(u)[0] == u[0];
    TrimEnd(u)
  }

  /** `TrimStart` keeps a suffix, and what it drops is white space. */
  lemma {:induction false} TrimStartSpec(s: string)
    ensures |TrimStart(s)| <= |s|
    ensures TrimStart(s) == s[|s| - |TrimStart(s)|..]
    ensures AllWhitespace(s[..|s| - |TrimStart(s)|])
    ensures TrimStart(s) != [] ==> !IsWhitespace(TrimStart(s)[0])
    decreases |s|
  {
    if |s| > 0 && IsWhitespace(s[0]) {
      var tail := s[1..];
      TrimStartSpec(tail);
      var i := |tail| - |TrimStart(tail)|;
      assert tail[i..] == s[i + 1..];
      var dropped := s[..i + 1];
      forall k | 0 <= k < |dropped|
        ensures IsWhitespace(dropped[k])
      {
        if k > 0 { assert dropped[k] == tail[..i][k - 1]; }
      }
    }
  }

  /** `TrimEnd` keeps a prefix, and what it drops is white space. */
  lemma {:induction false} TrimEndSpec(s: string)
    ensures |TrimEnd(s)| <= |s|
    ensures TrimEnd(s) == s[..|TrimEnd(s)|]
    ensures AllWhitespace(s[|TrimEnd(s)|..])
    ensures TrimEnd(s) != [] ==> !IsWhitespace(TrimEnd(s)[|TrimEnd(s)| - 1])
    decreases |s|
  {
    if |s| > 0 && IsWhitespace(s[|s| - 1]) {
      var front := s[..|s| - 1];
      TrimEndSpec(front);
      var j := |TrimEnd(front)|;
      assert front[..j] == s[..j];
      forall k | 0 <= k < |s| - j
        ensures IsWhitespace(s[j..][k])
      {
        if k < |front| - j { assert s[j..][k] == front[j..][k]; }
      }
    }
  }

  /** The trimmed name is empty exactly when the name is all white space. */
  lemma TrimEmptyIff(s: string)
    ensures Trim(s) == [] <==> AllWhitespace(s)
  {
    var i, j :| 0 <= i <= j <= |s| && Trim(s) == s[i..j] && AllWhitespace(s[..i]) && AllWhitespace(s[j..]);
    if Trim(s) == [] {
      forall k | 0 <= k < |s| ensures IsWhitespace(s[k]) {
        if k < i { assert s[k] == s[..i][k]; } else { assert s[k] == s[j..][k - j]; }
      }
    } else {
      assert Trim(s)[0] == s[i];
    }
  }

  /** Trimming twice is trimming once. */
  lemma TrimIdempotent(s: string)
    ensures Trim(Trim(s)) == Trim(s)
  {
    var r := Trim(s);
    if r != [] {
      assert TrimStart(r) == r;
      assert TrimEnd(r) == r;
    }
  }

  /** `name.trim().slice(0, 40)`. */
  function NormalizeName(name: string): (r: string)
    ensures |r| == if |Trim(name)| <= MAX_NAME_LENGTH then |Trim(name)| else MAX_NAME_LENGTH
    ensures r == Trim(name)[..|r|]
  {
    var t := Trim(name);
    if |t| <= MAX_NAME_LENGTH then t else t[..MAX_NAME_LENGTH]
  }

  /** A name is ignored by `login` exactly when it is all white space. */
  lemma NormalizeNameEmptyIff(name: string)
    ensures NormalizeName(name) == [] <==> AllWhitespace(name)
  {
    TrimEmptyIff(name);
  }

  /** The stored name never starts with white space, and short names are stored fully trimmed. */
  lemma NormalizeNameTrimmed(name: string)
    ensures NormalizeName(name) != [] ==> !IsWhitespace(NormalizeName(name)[0])
    ensures |Trim(name)| <= MAX_NAME_LENGTH ==> NormalizeName(name) == Trim(name)
  {
  }

  /** `Math.max(0, points + delta)`: the new balance after a credit (delta > 0) or a debit (delta < 0). */
  function Apply(points: int, delta: int): (r: int)
    ensures r >= 0
    ensures points + delta >= 0 ==> r == points + delta
    ensures points + delta < 0 ==> r == 0
  {
    if points + delta < 0 then 0 else points + delta
  }

  /** A debit of at most the balance is taken exactly, and a credit is added exactly. */
  lemma ApplyExact(points: int, amount: int)
    requires points >= 0 && amount >= 0
    ensures amount <= points ==> Apply(points, -amount) == points - amount
    ensures Apply(points, amount) == points + amount
    ensures Apply(Apply(points, amount), -amount) == points
  {
  }

  /**
   * `awardScorePoints`: a score converted into ledger points,
   * `Math.max(0, Math.floor(score))`.
   */
  function AwardScorePoints(score: real): (r: int)
    ensures r >= 0
    ensures score >= 0.0 ==> r as real <= score < r as real + 1.0
    ensures score < 0.0 ==> r == 0
  {
    if score.Floor < 0 then 0 else score.Floor
  }

  /** On a whole, non-negative score the award is the score itself. */
  lemma AwardScorePointsWhole(n: int)
    requires n >= 0
    ensures AwardScorePoints(n as real) == n
  {
  }

  /**
   * The provider's `user` state with its operations.  Each operation replaces
   * the profile as the source's `setUser` callbacks do.
   */
  class UserPoints {
    var user: Option<UserProfile>

    /** The balance is never negative and a stored name is the normalised form of some input. */
    ghost predicate Valid()
      reads this
    {
      user.Some? ==> user.value.points >= 0 && 0 < |user.value.name| <= MAX_NAME_LENGTH
    }

    /** The balance, 0 without a profile. */
    function Balance(): (b: int)
      reads this
      requires Valid()
      ensures b >= 0
    {
      if user.Some? then user.value.points else 0
    }

    /** No profile until `Login`. */
    constructor ()
      ensures Valid() && user.None?
    {
      user := None;
    }

    /**
     * `login`: a name that is empty after trimming is ignored; otherwise a
     * new profile starts with INITIAL_POINTS, and an existing one only
     * changes its name and keeps its balance.
     */
    method Login(name: string)
      requires Valid()
      modifies this
      ensures Valid()
      ensures var n := NormalizeName(name);
        user == if n == [] then old(user)
                else if old(user).None? then Some(UserProfile(n, INITIAL_POINTS))
                else Some(old(user).value.(name := n))
    {
      var trimmed := NormalizeName(name);
      if trimmed == [] {
        return;
      }
      if user.None? {
        user := Some(UserProfile(trimmed, INITIAL_POINTS));
        return;
      }
      user := Some(user.value.(name := trimmed));
    }

    /** `addPoints`: a zero delta or a missing profile changes nothing; otherwise the balance becomes `max(0, points + delta)`. */
    method AddPoints(delta: int)
      requires Valid()
      modifies this
      ensures Valid()
      ensures user == if delta == 0 || old(user).None? then old(user)
                      else Some(old(user).value.(points := Apply(old(user).value.points, delta)))
    {
      if delta == 0 {
        return;
      }
      if user.None? {
        return;
      }
      user := Some(user.value.(points := Apply(user.value.points, delta)));
    }

    /** `setPoints`: the balance becomes `max(0, value)`; without a profile nothing changes. */
    method SetPoints(value: int)
      requires Valid()
      modifies this
      ensures Valid()
      ensures user == if old(user).None? then old(user)
                      else Some(old(user).value.(points := Apply(0, value)))
    {
      if user.None? {
        return;
      }
      user := Some(user.value.(points := Apply(0, value)));
    }

    /** `reset`: forgets the profile. */
    method Reset()
      modifies this
      ensures Valid() && user.None?
    {
      user := None;
    }
  }
}
