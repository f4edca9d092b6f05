/** app/utils.py: sending a one-time code by e-mail, and the feed's sort dispatch.
    The TOTP function of pyotp, its random secret and the outcome of SMTP
    delivery are parameters: `totp(secret, t)` is the code for `secret` at
    time `t`, `freshSecret` is what `random_base32()` returned, and
    `deliveryOk` says whether the mail backend delivered or raised. A message
    without recipients never reaches the backend, so `deliveryOk` matters only
    for an account with an address. */
module Utils {
  import opened Queries
  import opened Models

  const BASE32_ALPHABET := "ABCDEFGHIJKLMNOPQRSTUVWXYZ234567"
  const SECRET_LENGTH := 32

  /** What `pyotp.random_base32()` returns: 32 characters of the base32 alphabet. */
  predicate IsBase32Secret(s: string) {
    |s| == SECRET_LENGTH && forall c :: c in s ==> c in BASE32_ALPHABET
  }

  /** `user.otp_secret` is truthy: neither null nor empty. */
  predicate HasSecret(u: Account) {
    u.otpSecret.Some? && u.otpSecret.value != ""
  }

  /** The secret the code is generated from: the stored one, or a fresh one when there is none. */
  function SecretFor(u: Account, freshSecret: string): string {
    if HasSecret(u) then u.otpSecret.value else freshSecret
  }

  /** What `send_mail(recipient_list=[email])` delivers once the connection is
      open: Django drops empty recipients, so an account without an address
      gets no message and the call still returns normally. */
  function CodeMail(email: string, code: string): (r: seq<Mail>)
    ensures |r| == if email == "" then 0 else 1
    ensures forall m :: m in r ==> m == Mail([email], code)
  {
    if email == "" then [] else [Mail([email], code)]
  }

  /** What one call of send_otp_to_email leaves behind: whether it returned
      normally, the user row as persisted afterwards, and the mail delivered. */
  datatype SendOutcome = SendOutcome(delivered: bool, account: Account, sent: seq<Mail>)

  /** send_otp_to_email on the persisted user `u`. A failed delivery raises
      before `user.save()`, so the row keeps its old secret and timestamp.
      With an empty address `send_mail` has no recipient, returns without
      contacting the backend, and the save always runs. */
  function SendOtp(u: Account, now: Time, freshSecret: string, totp: (string, Time) -> string, deliveryOk: bool): (r: SendOutcome)
    ensures r.delivered == (deliveryOk || u.email == "")
    ensures !r.delivered ==> r.account == u && r.sent == []
    ensures |r.sent| <= 1 && forall m :: m in r.sent ==> m.recipients == [u.email] && u.email != ""
    ensures r.account.username == u.username && r.account.email == u.email && r.account.verified == u.verified
  {
    var secret := SecretFor(u, freshSecret);
    if !deliveryOk && u.email != "" then SendOutcome(false, u, [])
    else SendOutcome(true, AutoNow(u.(otpSecret := Some(secret), otpCreatedAt := Some(now)), now),
                     CodeMail(u.email, totp(secret, now)))
  }

  /** An existing secret is reused unchanged; a missing one is replaced by the fresh secret. */
  lemma SendOtpSecret(u: Account, now: Time, freshSecret: string, totp: (string, Time) -> string)
    ensures HasSecret(u) ==> SendOtp(u, now, freshSecret, totp, true).account.otpSecret == u.otpSecret
    ensures !HasSecret(u) ==> SendOtp(u, now, freshSecret, totp, true).account.otpSecret == Some(freshSecret)
  {
  }

  /** A delivered call sends one mail, to the user's address only, carrying
      the TOTP value of the user's secret at the current time (no mail when the
      account has no address); the saved row has a non-empty secret, is
      stamped with the current time, and is otherwise the row it started from. */
  lemma SendOtpDelivered(u: Account, now: Time, freshSecret: string, totp: (string, Time) -> string)
    requires IsBase32Secret(freshSecret)
    ensures var r := SendOtp(u, now, freshSecret, totp, true);
      && r.delivered
      && r.sent == CodeMail(u.email, totp(SecretFor(u, freshSecret), now))
      && HasSecret(r.account)
      && r.account.otpCreatedAt == Some(now)
      && r.account == u.(otpSecret := r.account.otpSecret, otpCreatedAt := Some(now))
  {
  }

  /** A failed delivery to an address persists nothing: no new secret, no new
      timestamp, no mail. An account without an address cannot see a failure:
      the call behaves as if delivery had succeeded. */
  lemma SendOtpFailure(u: Account, now: Time, freshSecret: string, totp: (string, Time) -> string)
    ensures u.email != "" ==> SendOtp(u, now, freshSecret, totp, false) == SendOutcome(false, u, [])
    ensures u.email == "" ==> SendOtp(u, now, freshSecret, totp, false) == SendOtp(u, now, freshSecret, totp, true)
  {
  }

  /** send_otp_to_email(user), for the user whose primary key is `id`. */
  method SendOtpToEmail(site: Site, id: UserId, now: Time, freshSecret: string,
                        totp: (string, Time) -> string, deliveryOk: bool) returns (delivered: bool)
    requires site.Valid() && id < |site.users|
    modifies site`users, site`outbox
    ensures site.Valid()
    ensures var r := SendOtp(old(site.users)[id], now, freshSecret, totp, deliveryOk);
      && delivered == r.delivered
      && site.users == old(site.users)[id := r.account]
      && site.outbox == old(site.outbox) + r.sent
  {
    var user := site.users[id];
    if !HasSecret(user) {
      user := user.(otpSecret := Some(freshSecret));
    }
    var otp := totp(user.otpSecret.value, now);
    if user.email != "" {
      if !deliveryOk {
        // send_mail(..., fail_silently=False) raises: neither the timestamp nor the save below runs
        return false;
      }
      site.Deliver(Mail([user.email], otp));
    }
    user := user.(otpCreatedAt := Some(now));
    site.SaveUser(id, user, now);
    delivered := true;
  }

  /** The `status` values sort_articles recognises. */
  const FEED_STATUSES: set<string> := {"most_viewed", "least_viewed", "newest", "oldest"}

  /** sort_articles(queryset, status): a reordering of the queryset by the
      column the status names, or the queryset itself for any other status
      (None included). */
  function SortArticles(queryset: seq<Article>, status: Option<string>): (r: seq<Article>)
    ensures multiset(r) == multiset(queryset)
    ensures status == Some("most_viewed") ==> SortedBy(r, Ordering(ViewCount, true))
    ensures status == Some("least_viewed") ==> SortedBy(r, Ordering(ViewCount, false))
    ensures status == Some("newest") ==> SortedBy(r, Ordering(UpdatedAt, true))
    ensures status == Some("oldest") ==> SortedBy(r, Ordering(UpdatedAt, false))
    ensures (status.None? || status.value !in FEED_STATUSES) ==> r == queryset
  {
    if status == Some("most_viewed") then OrderBy(queryset, Ordering(ViewCount, true))
    else if status == Some("least_viewed") then OrderBy(queryset, Ordering(ViewCount, false))
    else if status == Some("newest") then OrderBy(queryset, Ordering(UpdatedAt, true))
    else if status == Some("oldest") then OrderBy(queryset, Ordering(UpdatedAt, false))
    else queryset
  }

  /** Sorting the feed a second time by the same status changes nothing. */
  lemma {:induction false} SortArticlesIdempotent(queryset: seq<Article>, status: Option<string>)
    ensures SortArticles(SortArticles(queryset, status), status) == SortArticles(queryset, status)
  {
    var once := SortArticles(queryset, status);
    if status == Some("most_viewed") {
      OrderBySortedIsIdentity(once, Ordering(ViewCount, true));
    } else if status == Some("least_viewed") {
      OrderBySortedIsIdentity(once, Ordering(ViewCount, false));
    } else if status == Some("newest") {
      OrderBySortedIsIdentity(once, Ordering(UpdatedAt, true));
    } else if status == Some("oldest") {
      OrderBySortedIsIdentity(once, Ordering(UpdatedAt, false));
    }
  }

  /** Ordering two rows whose keys differ puts the one that precedes first. */
  lemma OrderByPair(x: Article, y: Article, o: Ordering)
    requires KeyOf(x, o.key) != KeyOf(y, o.key)
    ensures OrderBy([x, y], o) == if Precedes(x, y, o) then [x, y] else [y, x]
  {
    assert [x, y][1..] == [y] && [y][1..] == [];
  }

  /** Placing a row into two ordered rows that it falls between. */
  lemma InsertOrderedMiddle(x: Article, y: Article, z: Article, o: Ordering)
    requires !Precedes(x, y, o) && Precedes(x, z, o)
    ensures InsertOrdered(x, [y, z], o) == [y, x, z]
  {
    assert [y, z][1..] == [z];
  }

  /** Articles viewed 5, 1 and 9 times come out as 9, 5, 1 under "most_viewed". */
  lemma MostViewedExample(a5: Article, a1: Article, a9: Article)
    requires a5.viewCount == 5 && a1.viewCount == 1 && a9.viewCount == 9
    ensures SortArticles([a5, a1, a9], Some("most_viewed")) == [a9, a5, a1]
  {
    var o := Ordering(ViewCount, true);
    assert [a5, a1, a9][1..] == [a1, a9];
    OrderByPair(a1, a9, o);
    InsertOrderedMiddle(a5, a9, a1, o);
  }

  /** The same articles come out as 1, 5, 9 under "least_viewed". */
  lemma LeastViewedExample(a5: Article, a1: Article, a9: Article)
    requires a5.viewCount == 5 && a1.viewCount == 1 && a9.viewCount == 9
    ensures SortArticles([a5, a1, a9], Some("least_viewed")) == [a1, a5, a9]
  {
    var o := Ordering(ViewCount, false);
    assert [a5, a1, a9][1..] == [a1, a9];
    OrderByPair(a1, a9, o);
    InsertOrderedMiddle(a5, a1, a9, o);
  }

  /** An unrecognised status leaves the queryset as it came. */
  lemma UnknownStatusExample(a5: Article, a1: Article, a9: Article)
    ensures SortArticles([a5, a1, a9], Some("popular")) == [a5, a1, a9]
    ensures SortArticles([a5, a1, a9], None) == [a5, a1, a9]
  {
    assert "popular" !in FEED_STATUSES;
  }
}
