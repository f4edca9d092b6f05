/** app/views.py: the request handlers that change the site's state. A handler
    is a method of this module that takes the `Site` it works on; `actor` is
    `request.user`, None for an anonymous visitor. The clock, the TOTP oracles, the random secret, the
    password hasher and the outcome of mail delivery are parameters. Only the
    handlers' effect on the store and the kind of response they give are
    modelled; messages, templates and redirect targets are not. */
module Views {
  import opened Queries
  import opened Models
  import opened Utils
  import opened Forms

  /** The kinds of response a handler gives. */
  datatype Response =
    | Done            // the action ran; the framework redirects or renders
    | NotFound        // Http404 from get_object / get_object_or_404
    | Forbidden       // HttpResponseForbidden from the ownership guard
    | LoginRedirect   // LoginRequiredMixin sent an anonymous visitor to the login page
    | FormInvalid     // the form was re-rendered with its errors
    | ServerError     // an exception escaped the handler

  /** A user-table change that never turns a verified account back into an
      unverified one, and never removes a row. */
  ghost predicate VerifiedKept(before: seq<Account>, after: seq<Account>) {
    |before| <= |after| && forall i :: 0 <= i < |before| && before[i].verified ==> after[i].verified
  }

  // ----- OTPVerifyView.get -----

  /** timedelta(minutes=3), in microseconds. */
  const OTP_COOLDOWN: int := 3 * 60 * 1000000

  /** `user.otp_created_at and now - user.otp_created_at < timedelta(minutes=3)`. */
  predicate InCooldown(u: Account, now: Time) {
    u.otpCreatedAt.Some? && now - u.otpCreatedAt.value < OTP_COOLDOWN
  }

  datatype OtpPageOutcome =
    | Rendered           // already verified: the form is shown, nothing else happens
    | CooldownWarning    // a code was stamped less than three minutes ago
    | CodeSent           // send_otp_to_email returned
    | DeliveryError      // send_mail raised inside send_otp_to_email
    | PageServerError    // an anonymous visitor: AnonymousUser has no `verified`

  /** The outcome of one GET of the OTP page, with the user row as persisted
      afterwards and the mail delivered. */
  datatype OtpPageResult = OtpPageResult(outcome: OtpPageOutcome, account: Account, sent: seq<Mail>)

  /** OTPVerifyView.get for the signed-in user `u`. */
  function OtpPageStep(u: Account, now: Time, freshSecret: string,
                       totp: (string, Time) -> string, deliveryOk: bool): (r: OtpPageResult)
    ensures r.account.verified == u.verified
    ensures r.account.username == u.username && r.account.email == u.email
    ensures r.outcome != CodeSent ==> r.account == u && r.sent == []
    ensures r.outcome == CodeSent ==> !u.verified && !InCooldown(u, now) && r.account.otpCreatedAt == Some(now)
  {
    if u.verified then OtpPageResult(Rendered, u, [])
    else if InCooldown(u, now) then OtpPageResult(CooldownWarning, u, [])
    else
      var s := SendOtp(u, now, freshSecret, totp, deliveryOk);
      OtpPageResult(if s.delivered then CodeSent else DeliveryError, s.account, s.sent)
  }

  /** A verified user's visit sends nothing and changes nothing. */
  lemma VerifiedVisitIsInert(u: Account, now: Time, freshSecret: string,
                             totp: (string, Time) -> string, deliveryOk: bool)
    requires u.verified
    ensures OtpPageStep(u, now, freshSecret, totp, deliveryOk) == OtpPageResult(Rendered, u, [])
  {
  }

  /** Within three minutes of the stamp an unverified user gets the warning, no mail, and no change. */
  lemma CooldownBlocksResend(u: Account, now: Time, freshSecret: string,
                             totp: (string, Time) -> string, deliveryOk: bool)
    requires !u.verified && u.otpCreatedAt.Some? && now - u.otpCreatedAt.value < OTP_COOLDOWN
    ensures OtpPageStep(u, now, freshSecret, totp, deliveryOk) == OtpPageResult(CooldownWarning, u, [])
  {
  }

  /** With no stamp, or one at least three minutes old, an unverified user's
      visit makes exactly one send_otp_to_email call: on delivery (always, for
      an account without an address) the code mail and a row stamped now. */
  lemma OutsideCooldownSendsOnce(u: Account, now: Time, freshSecret: string,
                                 totp: (string, Time) -> string, deliveryOk: bool)
    requires !u.verified && (u.otpCreatedAt.None? || now - u.otpCreatedAt.value >= OTP_COOLDOWN)
    ensures var r := OtpPageStep(u, now, freshSecret, totp, deliveryOk);
      var s := SendOtp(u, now, freshSecret, totp, deliveryOk);
      && r.account == s.account && r.sent == s.sent
      && (deliveryOk || u.email == "" ==>
            r.outcome == CodeSent && r.sent == CodeMail(u.email, totp(SecretFor(u, freshSecret), now))
            && r.account.otpCreatedAt == Some(now))
      && (!deliveryOk && u.email != "" ==> r == OtpPageResult(DeliveryError, u, []))
  {
  }

  /** Registration saves the new user, so `auto_now` stamps it: an OTP page
      visit within three minutes of registering gets the cooldown warning and
      no code. */
  lemma FreshRegistrationGetsNoCode(username: string, email: string, passwordHash: string, registeredAt: Time,
                                    now: Time, freshSecret: string, totp: (string, Time) -> string, deliveryOk: bool)
    requires registeredAt <= now < registeredAt + OTP_COOLDOWN
    ensures var u := AutoNow(NewAccount(username, email, passwordHash), registeredAt);
      OtpPageStep(u, now, freshSecret, totp, deliveryOk) == OtpPageResult(CooldownWarning, u, [])
  {
  }

  /** One GET of the OTP page: when it happens, and whether mail delivery succeeds. */
  datatype Visit = Visit(at: Time, deliveryOk: bool)

  /** The user row and the mail after a series of OTP page visits by one user. */
  datatype History = History(account: Account, sent: seq<Mail>)

  function Visits(u: Account, visits: seq<Visit>, freshSecret: string, totp: (string, Time) -> string): History
    decreases |visits|
  {
    if visits == [] then History(u, [])
    else
      var r := OtpPageStep(u, visits[0].at, freshSecret, totp, visits[0].deliveryOk);
      var rest := Visits(r.account, visits[1..], freshSecret, totp);
      History(rest.account, r.sent + rest.sent)
  }

  /** However many times the OTP page is visited, `verified` stays as it was. */
  lemma {:induction false} VisitsKeepVerified(u: Account, visits: seq<Visit>,
                                              freshSecret: string, totp: (string, Time) -> string)
    ensures Visits(u, visits, freshSecret, totp).account.verified == u.verified
    ensures Visits(u, visits, freshSecret, totp).account.username == u.username
    ensures Visits(u, visits, freshSecret, totp).account.email == u.email
    decreases |visits|
  {
    if visits != [] {
      var r := OtpPageStep(u, visits[0].at, freshSecret, totp, visits[0].deliveryOk);
      VisitsKeepVerified(r.account, visits[1..], freshSecret, totp);
    }
  }

  /** Once verified, visits of the OTP page send nothing and change nothing. */
  lemma {:induction false} VerifiedVisitsAreInert(u: Account, visits: seq<Visit>,
                                                  freshSecret: string, totp: (string, Time) -> string)
    requires u.verified
    ensures Visits(u, visits, freshSecret, totp) == History(u, [])
  {
    if visits != [] {
      VerifiedVisitsAreInert(u, visits[1..], freshSecret, totp);
    }
  }

  /** However many visits fall within three minutes of the stamp, none sends mail or changes the row. */
  lemma {:induction false} NoCodeWithinWindow(u: Account, stamp: Time, visits: seq<Visit>,
                                              freshSecret: string, totp: (string, Time) -> string)
    requires u.otpCreatedAt == Some(stamp)
    requires forall i :: 0 <= i < |visits| ==> visits[i].at < stamp + OTP_COOLDOWN
    ensures Visits(u, visits, freshSecret, totp) == History(u, [])
  {
    if visits != [] {
      NoCodeWithinWindow(u, stamp, visits[1..], freshSecret, totp);
    }
  }

  /** A visit that delivers a code, followed by any number of visits within
      the next three minutes, delivers exactly one mail in all (none to an
      account without an address). */
  lemma {:induction false} OneCodePerWindow(u: Account, first: Time, later: seq<Visit>,
                                            freshSecret: string, totp: (string, Time) -> string)
    requires !InCooldown(u, first) && !u.verified
    requires forall i :: 0 <= i < |later| ==> later[i].at < first + OTP_COOLDOWN
    ensures Visits(u, [Visit(first, true)] + later, freshSecret, totp).sent ==
            CodeMail(u.email, totp(SecretFor(u, freshSecret), first))
  {
    var visits := [Visit(first, true)] + later;
    assert visits[0] == Visit(first, true) && visits[1..] == later;
    var r := OtpPageStep(u, first, freshSecret, totp, true);
    NoCodeWithinWindow(r.account, first, later, freshSecret, totp);
  }

  /** Two visits within three minutes send one code; a third once the three
      minutes have passed sends a second (to an account with an address). */
  lemma {:induction false} ThirdVisitAfterWindow(u: Account, t1: Time, t2: Time, t3: Time,
                                                 freshSecret: string, totp: (string, Time) -> string)
    requires !InCooldown(u, t1) && !u.verified
    requires t2 < t1 + OTP_COOLDOWN && t3 >= t1 + OTP_COOLDOWN
    ensures |Visits(u, [Visit(t1, true), Visit(t2, true)], freshSecret, totp).sent| == if u.email == "" then 0 else 1
    ensures |Visits(u, [Visit(t1, true), Visit(t2, true), Visit(t3, true)], freshSecret, totp).sent| ==
      if u.email == "" then 0 else 2
  {
    OneCodePerWindow(u, t1, [Visit(t2, true)], freshSecret, totp);
    assert [Visit(t1, true)] + [Visit(t2, true)] == [Visit(t1, true), Visit(t2, true)];
    var a1 := OtpPageStep(u, t1, freshSecret, totp, true).account;
    assert Visits(a1, [Visit(t2, true)], freshSecret, totp) == History(a1, []) by {
      NoCodeWithinWindow(a1, t1, [Visit(t2, true)], freshSecret, totp);
    }
    var three := [Visit(t1, true), Visit(t2, true), Visit(t3, true)];
    assert three[1..] == [Visit(t2, true), Visit(t3, true)];
    assert [Visit(t2, true), Visit(t3, true)][1..] == [Visit(t3, true)];
    assert [Visit(t3, true)][1..] == [];
    var r3 := OtpPageStep(a1, t3, freshSecret, totp, true);
    assert |r3.sent| == if u.email == "" then 0 else 1;
    assert Visits(a1, [Visit(t3, true)], freshSecret, totp).sent == r3.sent;
    assert Visits(a1, [Visit(t2, true), Visit(t3, true)], freshSecret, totp).sent == r3.sent;
  }

  /** OTPVerifyView.get. */
  method OtpPage(site: Site, actor: Option<UserId>, now: Time, freshSecret: string,
                 totp: (string, Time) -> string, deliveryOk: bool) returns (outcome: OtpPageOutcome)
    requires site.Valid() && site.IsActor(actor)
    modifies site`users, site`outbox
    ensures site.Valid() && VerifiedKept(old(site.users), site.users)
    ensures actor.None? ==> outcome == PageServerError && site.users == old(site.users) && site.outbox == old(site.outbox)
    ensures actor.Some? ==>
      var r := OtpPageStep(old(site.users)[actor.value], now, freshSecret, totp, deliveryOk);
      && outcome == r.outcome
      && site.users == old(site.users)[actor.value := r.account]
      && site.outbox == old(site.outbox) + r.sent
  {
    if actor.None? {
      return PageServerError;
    }
    var id := actor.value;
    var user := site.users[id];
    if user.verified {
      assert site.users[id := user] == site.users;
      return Rendered;
    }
    if InCooldown(user, now) {
      assert site.users[id := user] == site.users;
      return CooldownWarning;
    }
    var delivered := SendOtpToEmail(site, id, now, freshSecret, totp, deliveryOk);
    if !delivered {
      assert old(site.users)[id := user] == old(site.users);
      return DeliveryError;
    }
    outcome := CodeSent;
  }

  // ----- OTPVerifyView.form_valid -----

  datatype OtpSubmitOutcome =
    | Accepted            // verified set, user saved, redirect to the feed
    | Rejected            // "wrong code": the form is shown again
    | CodeInvalid         // the OTP form itself failed (empty or longer than six characters)
    | SubmitServerError   // no secret to verify against, or an anonymous visitor

  datatype OtpSubmitResult = OtpSubmitResult(outcome: OtpSubmitOutcome, account: Account)

  /** form_valid for the signed-in user `u` and a code that passed the form.
      `totpOk(secret, code, t)` is `pyotp.TOTP(secret).verify(code)` at time `t`;
      with a null secret pyotp fails before any comparison. */
  function OtpSubmitStep(u: Account, code: string, now: Time, totpOk: (string, string, Time) -> bool): (r: OtpSubmitResult)
    ensures r.outcome == SubmitServerError <==> u.otpSecret.None?
    ensures r.account.verified == (u.verified || r.outcome == Accepted)
    ensures r.outcome != Accepted ==> r.account == u
    ensures r.outcome == Accepted ==> u.otpSecret.Some? && totpOk(u.otpSecret.value, code, now)
    ensures r.outcome == Accepted ==> r.account == u.(verified := true, otpCreatedAt := Some(now))
  {
    if u.otpSecret.None? then OtpSubmitResult(SubmitServerError, u)
    else if totpOk(u.otpSecret.value, code, now) then OtpSubmitResult(Accepted, AutoNow(u.(verified := true), now))
    else OtpSubmitResult(Rejected, u)
  }

  /** A code the oracle accepts verifies the account and saves it, which restamps it. */
  lemma AcceptedCodeVerifies(u: Account, code: string, now: Time, totpOk: (string, string, Time) -> bool)
    requires u.otpSecret.Some? && totpOk(u.otpSecret.value, code, now)
    ensures OtpSubmitStep(u, code, now, totpOk) ==
      OtpSubmitResult(Accepted, u.(verified := true, otpCreatedAt := Some(now)))
  {
  }

  /** A rejected code changes nothing, so no save happens either. */
  lemma RejectedCodeChangesNothing(u: Account, code: string, now: Time, totpOk: (string, string, Time) -> bool)
    requires u.otpSecret.Some? && !totpOk(u.otpSecret.value, code, now)
    ensures OtpSubmitStep(u, code, now, totpOk) == OtpSubmitResult(Rejected, u)
  {
  }

  /** After an accepted code, no visit of the OTP page sends another code or
      touches the row again. */
  lemma {:induction false} AcceptedCodeEndsMail(u: Account, code: string, now: Time,
                                                totpOk: (string, string, Time) -> bool, visits: seq<Visit>,
                                                freshSecret: string, totp: (string, Time) -> string)
    requires OtpSubmitStep(u, code, now, totpOk).outcome == Accepted
    ensures var a := OtpSubmitStep(u, code, now, totpOk).account;
      Visits(a, visits, freshSecret, totp) == History(a, [])
  {
    VerifiedVisitsAreInert(OtpSubmitStep(u, code, now, totpOk).account, visits, freshSecret, totp);
  }

  /** OTPVerifyView.post: the form is validated first, then form_valid runs. */
  method OtpSubmit(site: Site, actor: Option<UserId>, code: string, now: Time,
                   totpOk: (string, string, Time) -> bool) returns (outcome: OtpSubmitOutcome)
    requires site.Valid() && site.IsActor(actor)
    modifies site`users
    ensures site.Valid() && VerifiedKept(old(site.users), site.users)
    ensures OtpFormErrors(code) != {} ==> outcome == CodeInvalid && site.users == old(site.users)
    ensures OtpFormErrors(code) == {} && actor.None? ==> outcome == SubmitServerError && site.users == old(site.users)
    ensures OtpFormErrors(code) == {} && actor.Some? ==>
      var r := OtpSubmitStep(old(site.users)[actor.value], code, now, totpOk);
      outcome == r.outcome && site.users == old(site.users)[actor.value := r.account]
  {
    if OtpFormErrors(code) != {} {
      return CodeInvalid;
    }
    if actor.None? {
      return SubmitServerError;
    }
    var id := actor.value;
    var user := site.users[id];
    if user.otpSecret.None? {
      assert site.users[id := user] == site.users;
      return SubmitServerError;
    }
    if !totpOk(user.otpSecret.value, code, now) {
      assert site.users[id := user] == site.users;
      return Rejected;
    }
    user := user.(verified := true);
    site.SaveUser(id, user, now);
    outcome := Accepted;
  }

  // ----- ArticleUpdateView.dispatch / ArticleDeleteView.dispatch -----

  /** `request.user != obj.user and not request.user.is_superuser`. An
      anonymous visitor equals no user and is no superuser, so it is
      rejected even for an article without an owner. */
  predicate GuardRejects(users: seq<Account>, actor: Option<UserId>, owner: Option<UserId>)
    requires actor.Some? ==> actor.value < |users|
    ensures actor.None? ==> GuardRejects(users, actor, owner)
    ensures actor.Some? && owner == actor ==> !GuardRejects(users, actor, owner)
    ensures actor.Some? && users[actor.value].isSuperuser ==> !GuardRejects(users, actor, owner)
  {
    var sameUser := actor.Some? && owner == actor;
    var superuser := actor.Some? && users[actor.value].isSuperuser;
    !sameUser && !superuser
  }

  /** The guard lets a request through exactly when it comes from the owner or a superuser. */
  lemma GuardAllowsIff(users: seq<Account>, actor: Option<UserId>, owner: Option<UserId>)
    requires actor.Some? ==> actor.value < |users|
    ensures !GuardRejects(users, actor, owner) <==>
      actor.Some? && (owner == actor || users[actor.value].isSuperuser)
  {
  }

  // ----- ArticleDetailView.get_context_data -----

  /** `article.view_count += 1` on one row. */
  function CountView(a: Article): (r: Article)
    ensures r.viewCount == a.viewCount + 1
    ensures r.(viewCount := a.viewCount) == a
  {
    a.(viewCount := a.viewCount + 1)
  }

  /** GET of an article page: the article with that slug has its view count
      raised by one (that column only), and its comments are listed. */
  method ViewArticle(site: Site, slug: string) returns (response: Response, comments: seq<Comment>)
    requires site.Valid()
    modifies site`articles
    ensures site.Valid()
    ensures var k := ArticleBySlug(old(site.articles), slug);
      && (k.None? ==> response == NotFound && site.articles == old(site.articles) && comments == [])
      && (k.Some? ==>
            && response == Done
            && site.articles == old(site.articles)[k.value := CountView(old(site.articles)[k.value])]
            && comments == CommentsOf(site.comments, old(site.articles)[k.value].id))
  {
    var k := ArticleBySlug(site.articles, slug);
    if k.None? {
      return NotFound, [];
    }
    var article := site.articles[k.value];
    assert CountView(article) == article.(viewCount := article.viewCount + 1);
    site.SaveViewCount(k.value, article.viewCount + 1);
    response := Done;
    comments := CommentsOf(site.comments, article.id);
  }

  // ----- ArticleCreateView / ArticleUpdateView / ArticleDeleteView -----

  const TITLE_MAX_LENGTH := 64

  /** ArticleCreateForm on the fields the model keeps: a required title of at
      most 64 characters and an existing category. */
  predicate ArticleFormOk(categoryCount: nat, title: string, category: nat) {
    title != "" && |title| <= TITLE_MAX_LENGTH && category < categoryCount
  }

  /** POST to the create view: login required, then the form, then
      `form.save()` with the requesting user as owner. A slug that another
      article already has violates the unique column. */
  method CreateArticle(site: Site, actor: Option<UserId>, title: string, category: nat, now: Time)
    returns (response: Response)
    requires site.Valid() && site.IsActor(actor)
    modifies site`articles, site`nextArticleId
    ensures site.Valid()
    ensures response != Done ==> site.articles == old(site.articles)
    ensures actor.None? ==> response == LoginRedirect
    ensures actor.Some? && !ArticleFormOk(|site.categories|, title, category) ==> response == FormInvalid
    ensures actor.Some? && ArticleFormOk(|site.categories|, title, category) ==>
      (ArticleSlugTaken(old(site.articles), site.slugify(title), None) <==> response == ServerError)
    ensures actor.Some? && ArticleFormOk(|site.categories|, title, category) && response != ServerError ==>
      && response == Done
      && site.articles ==
         old(site.articles) + [Article(old(site.nextArticleId), actor, title, category, site.slugify(title), now, now, 0)]
  {
    if actor.None? {
      return LoginRedirect;
    }
    if !ArticleFormOk(|site.categories|, title, category) {
      return FormInvalid;
    }
    var id := site.InsertArticle(actor, title, category, now);
    response := if id.Some? then Done else ServerError;
  }

  /** POST to the update view. dispatch looks the article up (404) and runs
      the ownership guard before LoginRequiredMixin, so an anonymous visitor
      is refused by the guard; then the form is validated and the article
      saved, which derives its slug from the new title. */
  method EditArticle(site: Site, actor: Option<UserId>, slug: string, title: string, category: nat, now: Time)
    returns (response: Response)
    requires site.Valid() && site.IsActor(actor)
    modifies site`articles
    ensures site.Valid()
    ensures response != Done ==> site.articles == old(site.articles)
    ensures var k := ArticleBySlug(old(site.articles), slug);
      && (k.None? ==> response == NotFound)
      && (k.Some? && GuardRejects(site.users, actor, old(site.articles)[k.value].owner) ==> response == Forbidden)
      && (k.Some? && !GuardRejects(site.users, actor, old(site.articles)[k.value].owner) ==>
            if !ArticleFormOk(|site.categories|, title, category) then response == FormInvalid
            else if ArticleSlugTaken(old(site.articles), site.slugify(title), k) then response == ServerError
            else response == Done && site.articles == old(site.articles)[k.value :=
              old(site.articles)[k.value].(title := title, category := category,
                                           slug := site.slugify(title), updatedAt := now)])
  {
    var k := ArticleBySlug(site.articles, slug);
    if k.None? {
      return NotFound;
    }
    if GuardRejects(site.users, actor, site.articles[k.value].owner) {
      return Forbidden;
    }
    if !ArticleFormOk(|site.categories|, title, category) {
      return FormInvalid;
    }
    var saved := site.UpdateArticle(k.value, title, category, now);
    response := if saved then Done else ServerError;
  }

  /** POST to the delete view, by primary key: 404, then the same guard,
      then the article and its comments are deleted. */
  method RemoveArticle(site: Site, actor: Option<UserId>, pk: ArticleId) returns (response: Response)
    requires site.Valid() && site.IsActor(actor)
    modifies site`articles, site`comments
    ensures site.Valid()
    ensures response != Done ==> site.articles == old(site.articles) && site.comments == old(site.comments)
    ensures var k := ArticleByPk(old(site.articles), pk);
      && (k.None? ==> response == NotFound)
      && (k.Some? && GuardRejects(site.users, actor, old(site.articles)[k.value].owner) ==> response == Forbidden)
      && (k.Some? && !GuardRejects(site.users, actor, old(site.articles)[k.value].owner) ==>
            response == Done
            && site.articles == old(site.articles[..k.value] + site.articles[k.value + 1..])
            && site.comments == CommentsExcept(old(site.comments), pk))
  {
    var k := ArticleByPk(site.articles, pk);
    if k.None? {
      return NotFound;
    }
    if GuardRejects(site.users, actor, site.articles[k.value].owner) {
      return Forbidden;
    }
    site.DeleteArticle(k.value);
    response := Done;
  }

  // ----- CommentCreateView -----

  /** POST of a comment: the article is resolved from the slug first (404,
      even for an anonymous visitor), then login is required, then the text.
      The comment belongs to that article and to the requesting user. The
      view names neither a template nor a model, so re-rendering an invalid
      form raises ImproperlyConfigured. */
  method CreateComment(site: Site, actor: Option<UserId>, slug: string, text: string, now: Time)
    returns (response: Response)
    requires site.Valid() && site.IsActor(actor)
    modifies site`comments
    ensures site.Valid()
    ensures response != Done ==> site.comments == old(site.comments)
    ensures var k := ArticleBySlug(site.articles, slug);
      && (k.None? ==> response == NotFound)
      && (k.Some? && actor.None? ==> response == LoginRedirect)
      && (k.Some? && actor.Some? && text == "" ==> response == ServerError)
      && (k.Some? && actor.Some? && text != "" ==>
            response == Done
            && site.comments == old(site.comments) + [Comment(actor.value, site.articles[k.value].id, text, now, false)])
  {
    var k := ArticleBySlug(site.articles, slug);
    if k.None? {
      return NotFound;
    }
    if actor.None? {
      return LoginRedirect;
    }
    if text == "" {
      return ServerError;
    }
    var article := site.articles[k.value];
    assert article in site.articles;
    site.InsertComment(Comment(actor.value, article.id, text, now, false));
    response := Done;
  }

  // ----- CustomRegistrationView / CustomLoginView -----

  /** POST of the registration form: on success the user row is inserted
      (defaults apply, the address as `normalize_email` rewrites it, the
      password hashed, `auto_now` stamps it) and the new user is signed in.
      `normalizeEmail` stands for BaseUserManager.normalize_email, which the
      model's clean applies after clean_email checked the address as entered. */
  method Register(site: Site, username: string, email: string, password: string, confirm: string,
                  normalizeEmail: string -> string, hash: string -> string, now: Time)
    returns (response: Response, session: Option<UserId>)
    requires site.Valid()
    modifies site`users
    ensures site.Valid() && VerifiedKept(old(site.users), site.users)
    ensures RegistrationErrors(old(site.users), username, email, password, confirm) != {} ==>
      response == FormInvalid && session.None? && site.users == old(site.users)
    ensures RegistrationErrors(old(site.users), username, email, password, confirm) == {} ==>
      && response == Done && session == Some(|old(site.users)|)
      && site.users == old(site.users) + [AutoNow(NewAccount(username, normalizeEmail(email), hash(password)), now)]
  {
    var errors := RegistrationErrors(site.users, username, email, password, confirm);
    if errors != {} {
      return FormInvalid, None;
    }
    RegistrationValidIff(site.users, username, email, password, confirm);
    var id := site.InsertUser(NewAccount(username, normalizeEmail(email), hash(password)), now);
    response, session := Done, Some(id);
  }

  /** Registration checks the address as entered but stores it normalised:
      an address that normalises to one already stored passes clean_email,
      and afterwards the store holds two accounts with one address, so a
      login by that address that no username accepts raises. */
  lemma NormalisedAddressCollides(users: seq<Account>, username: string, email: string,
                                   password: string, confirm: string,
                                   normalizeEmail: string -> string, hash: string -> string,
                                   now: Time, k: nat, loginPassword: string,
                                   passwordOk: (Account, string) -> bool)
    requires RegistrationErrors(users, username, email, password, confirm) == {}
    requires k < |users| && users[k].email == normalizeEmail(email) && users[k].email != ""
    ensures var after := users + [AutoNow(NewAccount(username, normalizeEmail(email), hash(password)), now)];
      && UserByEmail(after, users[k].email) == MultipleObjectsReturned
      && (loginPassword != "" && Authenticate(after, users[k].email, loginPassword, passwordOk).None? ==>
            ResolveLogin(after, users[k].email, loginPassword, passwordOk) == MultipleAccounts)
  {
    var after := users + [AutoNow(NewAccount(username, normalizeEmail(email), hash(password)), now)];
    assert after[k].email == users[k].email && after[|users|].email == users[k].email;
    if loginPassword != "" && Authenticate(after, users[k].email, loginPassword, passwordOk).None? {
      SharedAddressRaises(after, users[k].email, loginPassword, passwordOk, k, |users|);
    }
  }

  /** POST of the login form: LoginForm.clean, then the session holds `get_user()`. */
  method SignIn(site: Site, login: string, password: string, passwordOk: (Account, string) -> bool)
    returns (response: Response, session: Option<UserId>)
    ensures var r := ResolveLogin(site.users, login, password, passwordOk);
      && (r.Authenticated? ==> response == Done && session == Some(r.id))
      && (r.MultipleAccounts? ==> response == ServerError && session.None?)
      && (!r.Authenticated? && !r.MultipleAccounts? ==> response == FormInvalid && session.None?)
  {
    var form := new LoginForm(login, password);
    var outcome := form.Clean(site.users, passwordOk);
    if outcome.MultipleAccounts? {
      return ServerError, None;
    }
    session := form.GetUser();
    response := if session.Some? then Done else FormInvalid;
  }

  // ----- ArticleListView -----

  /** The feed: every article in the default newest-first order, reordered by
      sort_articles when the status names a column. */
  function Feed(site: Site, status: Option<string>): (r: seq<Article>)
    reads site
    ensures multiset(r) == multiset(site.articles)
    ensures (status.None? || status.value !in FEED_STATUSES) ==> SortedBy(r, NEWEST_FIRST)
    ensures status == Some("most_viewed") ==> SortedBy(r, Ordering(ViewCount, true))
    ensures status == Some("least_viewed") ==> SortedBy(r, Ordering(ViewCount, false))
    ensures status == Some("newest") ==> SortedBy(r, Ordering(UpdatedAt, true))
    ensures status == Some("oldest") ==> SortedBy(r, Ordering(UpdatedAt, false))
  {
    SortArticles(DefaultOrder(site.articles), status)
  }
}
