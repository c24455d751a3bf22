/**
 * The user record of apps/backend/src/models/User.ts: the schema's
 * defaults, setters and `passwordHash` rule, and the activity streak that
 * `updateLastActive` keeps. Times are milliseconds since the epoch; the
 * local calendar is a function `midnight` giving the start of the local day
 * that holds a time (what `new Date(y, m, d)` computes).
 */
module UserModel {
  import opened Outcome
  import opened Text
  import opened Environment

  /** `24 * 60 * 60 * 1000`. */
  const DAY_MS: int := 24 * 60 * 60 * 1000

  datatype Role = Free | Premium

  /** `oauthProviders: { google?: string, github?: string }`. */
  datatype OAuthProviders = OAuthProviders(google: Option<string>, github: Option<string>)

  /** `passwordHash` is required unless the user signed in with Google or GitHub. */
  predicate PasswordRequired(p: OAuthProviders) {
    !IsSet(p.google) && !IsSet(p.github)
  }

  /** Mongoose's `required` refuses a missing value and the empty string. */
  predicate PasswordRuleHolds(p: OAuthProviders, passwordHash: Option<string>) {
    PasswordRequired(p) ==> IsSet(passwordHash)
  }

  /**
   * The `lowercase` setter, on ASCII letters: no upper-case ASCII letter is
   * left, and every other character is kept in place.
   */
  function LowerString(s: string): (r: string)
    ensures |r| == |s|
    ensures forall i :: 0 <= i < |r| ==> !('A' <= r[i] <= 'Z')
    ensures forall i :: 0 <= i < |s| ==> !('A' <= s[i] <= 'Z') ==> r[i] == s[i]
    ensures forall i :: 0 <= i < |s| ==> Lower(r[i]) == Lower(s[i])
  {
    seq(|s|, i requires 0 <= i < |s| => Lower(s[i]))
  }

  /** Lower-casing twice is lower-casing once, so a stored e-mail is its own lower case. */
  lemma LowerStringIdempotent(s: string)
    ensures LowerString(LowerString(s)) == LowerString(s)
  {
    var r := LowerString(s);
    assert forall i :: 0 <= i < |r| ==> LowerString(r)[i] == r[i];
  }

  /**
   * The streak after a visit at `now`: reset to 1 when the last visit is
   * more than 24 hours old; otherwise one more when the last visit's day
   * is the day before today, reset to 1 when it is earlier, and unchanged
   * when it is today (or later).
   */
  function NextStreak(streak: int, lastActiveAt: int, now: int, midnight: int -> int): (r: int)
    ensures r == 1 || r == streak || r == streak + 1
    ensures r == streak + 1 && streak != 0 ==> lastActiveAt >= now - DAY_MS && midnight(lastActiveAt) == midnight(now) - DAY_MS
    ensures midnight(lastActiveAt) >= midnight(now) && lastActiveAt >= now - DAY_MS ==> r == streak
    ensures lastActiveAt >= now - DAY_MS && midnight(lastActiveAt) < midnight(now) - DAY_MS ==> r == 1
  {
    if lastActiveAt < now - DAY_MS then 1
    else if midnight(lastActiveAt) == midnight(now) - DAY_MS then streak + 1
    else if midnight(lastActiveAt) < midnight(now) - DAY_MS then 1
    else streak
  }

  /** The start of the day of `t` in a calendar of whole 24-hour days, such as UTC. */
  predicate WholeDay(midnight: int -> int, t: int) {
    midnight(t) <= t < midnight(t) + DAY_MS && midnight(t) % DAY_MS == 0
  }

  class User {
    var name: string
    var email: string
    var passwordHash: Option<string>
    var role: Role
    var oauthProviders: OAuthProviders
    var avatarUrl: string
    var startedAt: int
    var lastActiveAt: int
    var consecutiveDays: int

    /**
     * The document as the schema accepts it: the name and the e-mail, after
     * their setters, are not empty (`required`), and the password rule holds.
     */
    predicate Valid()
      reads this
    {
      name != [] && email != [] && PasswordRuleHolds(oauthProviders, passwordHash)
    }

    /**
     * A new document created at `now`: name trimmed, e-mail trimmed and
     * lower-cased, role 'free', avatar '', streak 0, both dates `now`.
     */
    constructor (name: string, email: string, passwordHash: Option<string>, oauthProviders: OAuthProviders, now: int)
      ensures this.name == Trim(name) && this.email == LowerString(Trim(email))
      ensures this.passwordHash == passwordHash && this.oauthProviders == oauthProviders
      ensures role == Free && avatarUrl == "" && consecutiveDays == 0
      ensures startedAt == now && lastActiveAt == now
      ensures Valid() <==> Trim(name) != [] && Trim(email) != [] && PasswordRuleHolds(oauthProviders, passwordHash)
    {
      this.name := Trim(name);
      this.email := LowerString(Trim(email));
      this.passwordHash := passwordHash;
      this.oauthProviders := oauthProviders;
      role := Free;
      avatarUrl := "";
      consecutiveDays := 0;
      startedAt := now;
      lastActiveAt := now;
    }

    /** `updateLastActive()` at time `now`; the `save` that follows is left out. */
    method UpdateLastActive(now: int, midnight: int -> int)
      modifies this
      ensures lastActiveAt == now
      ensures consecutiveDays == NextStreak(old(consecutiveDays), old(lastActiveAt), now, midnight)
      ensures name == old(name) && email == old(email) && passwordHash == old(passwordHash)
      ensures role == old(role) && oauthProviders == old(oauthProviders) && avatarUrl == old(avatarUrl)
      ensures startedAt == old(startedAt)
      ensures Valid() == old(Valid())
    {
      var yesterday := now - DAY_MS;
      if lastActiveAt < yesterday {
        consecutiveDays := 1;
      } else {
        var today := midnight(now);
        var lastActiveDay := midnight(lastActiveAt);
        if lastActiveDay == today - DAY_MS {
          consecutiveDays := consecutiveDays + 1;
        } else if lastActiveDay < today - DAY_MS {
          consecutiveDays := 1;
        }
      }
      lastActiveAt := now;
    }

    /** `calculateConsecutiveDays()`: the streak after the update. */
    method CalculateConsecutiveDays(now: int, midnight: int -> int) returns (days: int)
      modifies this
      ensures days == consecutiveDays
      ensures days == NextStreak(old(consecutiveDays), old(lastActiveAt), now, midnight)
      ensures lastActiveAt == now
      ensures name == old(name) && email == old(email) && passwordHash == old(passwordHash)
      ensures role == old(role) && oauthProviders == old(oauthProviders) && avatarUrl == old(avatarUrl)
      ensures startedAt == old(startedAt)
    {
      UpdateLastActive(now, midnight);
      days := consecutiveDays;
    }
  }

  /** The password is required exactly when no provider id is set. */
  lemma PasswordRequiredExactly(p: OAuthProviders, hash: Option<string>)
    ensures PasswordRequired(p) <==> (p.google.None? || p.google.value == "") && (p.github.None? || p.github.value == "")
    ensures !PasswordRequired(p) ==> PasswordRuleHolds(p, hash)
    ensures PasswordRequired(p) ==> (PasswordRuleHolds(p, hash) <==> hash.Some? && hash.value != "")
  {
  }

  /** A visit more than 24 hours after the last one resets the streak to 1. */
  lemma StaleVisitResets(streak: int, lastActiveAt: int, now: int, midnight: int -> int)
    requires lastActiveAt < now - DAY_MS
    ensures NextStreak(streak, lastActiveAt, now, midnight) == 1
  {
  }

  /**
   * A visit within 24 hours lengthens the streak exactly when the last
   * visit's day is the day before today, leaves it alone when that day is
   * later than yesterday, and resets it to 1 when that day is earlier.
   */
  lemma RecentVisit(streak: int, lastActiveAt: int, now: int, midnight: int -> int)
    requires lastActiveAt >= now - DAY_MS
    ensures NextStreak(streak, lastActiveAt, now, midnight) == streak + 1 <==>
      (midnight(lastActiveAt) == midnight(now) - DAY_MS || (streak == 0 && midnight(lastActiveAt) < midnight(now) - DAY_MS))
    ensures midnight(lastActiveAt) > midnight(now) - DAY_MS ==> NextStreak(streak, lastActiveAt, now, midnight) == streak
    ensures midnight(lastActiveAt) < midnight(now) - DAY_MS ==> NextStreak(streak, lastActiveAt, now, midnight) == 1
  {
  }

  /** Two whole-day boundaries less than two days apart and not in the wrong order are equal or one day apart. */
  lemma AdjacentDays(a: int, b: int)
    requires a % DAY_MS == 0 && b % DAY_MS == 0
    requires b - 2 * DAY_MS < a <= b
    ensures a == b || a == b - DAY_MS
  {
    var qa, qb := a / DAY_MS, b / DAY_MS;
    assert a == DAY_MS * qa && b == DAY_MS * qb;
    assert DAY_MS * (qb - 2) < DAY_MS * qa <= DAY_MS * qb;
    assert qb - 2 < qa <= qb;
  }

  /**
   * In a calendar of whole days, a visit within 24 hours is on the same
   * day as the last one or on the next; so the reset by day comparison
   * never fires, and the streak grows by one on a new day and stays on the
   * same day.
   */
  lemma WholeDayStreak(streak: int, lastActiveAt: int, now: int, midnight: int -> int)
    requires WholeDay(midnight, lastActiveAt) && WholeDay(midnight, now)
    requires now - DAY_MS <= lastActiveAt <= now
    ensures midnight(lastActiveAt) == midnight(now) || midnight(lastActiveAt) == midnight(now) - DAY_MS
    ensures midnight(lastActiveAt) == midnight(now) ==> NextStreak(streak, lastActiveAt, now, midnight) == streak
    ensures midnight(lastActiveAt) != midnight(now) ==> NextStreak(streak, lastActiveAt, now, midnight) == streak + 1
  {
    AdjacentDays(midnight(lastActiveAt), midnight(now));
  }

  /**
   * A new user (streak 0, last active at creation) who comes back later
   * the same day still has a streak of 0: the first day is not counted
   * until a visit on the next day.
   */
  lemma FirstDayNotCounted(created: int, now: int, midnight: int -> int)
    requires now - DAY_MS <= created <= now && midnight(created) == midnight(now)
    ensures NextStreak(0, created, now, midnight) == 0
    ensures forall later :: midnight(later) == midnight(now) + DAY_MS && later - DAY_MS <= now ==>
      NextStreak(NextStreak(0, created, now, midnight), now, later, midnight) == 1
  {
  }
}
