# A verified model of the Django blog's accounts, OTP gate and article handling

The blog lets people register, sign in by username or e-mail address, and
confirm their e-mail address with a one-time code (OTP). Signed-in users
write articles and comment on them. An article is edited or deleted only by
its owner or by a superuser. The feed is sorted by view count or update
time.

This project models that core in Dafny:

- `queries.dfy` (module `Queries`): the ORM query shapes the code uses.
  These are `filter(...).first()` and `.exists()`, `get(...)` with its
  `DoesNotExist` and `MultipleObjectsReturned` exceptions, and `filter(...)`.
- `models.dfy` (module `Models`): the user, category, article and comment
  records of `app/models.py`. Also the class `Site`, which holds the tables
  and the log of delivered mail. Its save methods apply `auto_now` and the
  slug derivation of `Category.save` and `Article.save`. `Site.Valid()`
  states the unique and foreign-key constraints. Only `username` is unique
  among the user columns. Every save method keeps `Site.Valid()`.
- `utils.dfy` (module `Utils`): `send_otp_to_email` and `sort_articles`.
- `forms.dfy` (module `Forms`): `LoginForm.clean` and `get_user`, the
  registration validators, and the length bound of the OTP form.
- `views.dfy` (module `Views`): the handlers that change state. These are
  the OTP page (GET and POST), article detail, create, update and delete,
  comment creation, registration and sign-in. The feed is here too.

The foreign pieces are parameters, and the model does not look inside them:

- pyotp's TOTP generation and verification are oracles
  `totp(secret, t)` and `totpOk(secret, code, t)`.
- `random_base32()` is the string `freshSecret`.
- Whether the mail backend delivers or raises is `deliveryOk`. It matters
  only for an account with an address.
- `BaseUserManager.normalize_email` is the function `normalizeEmail`.
- Django's password check is `passwordOk(account, password)`, and
  `set_password` is the function `hash`.
- pytils' `slugify` is a constant function `Site.slugify`.
- The clock is the parameter `now`, in microseconds.
- `request.user` is `actor`: None for an anonymous visitor, otherwise the
  user's primary key. A user's primary key is their position in the users
  table.

A few behaviours follow from the code and are easy to miss. The model keeps
all of them:

- `otp_created_at` has `auto_now=True`, so every save of a user restamps it.
  The registration save is one such save. A user who opens the OTP page
  within three minutes of registering therefore gets the cooldown warning
  and no code (`Views.FreshRegistrationGetsNoCode`).
- `send_mail` is called with `fail_silently=False`. A failed delivery raises
  before `user.save()`, so the request fails and nothing is persisted. No
  new secret and no new stamp are saved (`Utils.SendOtpFailure`).
- `pyotp.TOTP(None).verify(...)` raises; it does not return false. A code
  submitted by a user who has no secret yet is a server error.
- The update and delete views look the article up before their ownership
  guard:
  - a missing article is a 404 before any 403;
  - the guard runs before `LoginRequiredMixin`, so an anonymous visitor gets
    403, not the login redirect, even on an article with no owner.
- The comment view resolves the article before login is required. An
  anonymous visitor therefore gets a 404 for an unknown slug.
- No handler checks `verified`. Creating, editing, deleting and commenting
  require a login only.
- A password/confirmation mismatch is reported only when the password passed
  its own checks (`Forms.MismatchIff`).
- The e-mail address is optional. For an account without one, `send_mail`
  drops the empty recipient, sends nothing and cannot fail. The stamp and
  the save always happen (`Utils.CodeMail`, `Utils.SendOtpFailure`).
- `clean_email` checks the address as entered, but the model's `clean`
  stores it normalised. Two accounts can therefore end up sharing an
  address, and a login by that address then raises
  (`Views.NormalisedAddressCollides`).
- The comment view names no template and no model. An empty comment
  therefore cannot re-render the form and is a server error.

## Model

| member | source | states |
|---|---|---|
| `Queries.GetWhere` | app/forms.py:47-51 | `get(...)`: DoesNotExist iff no row matches; Found names the only matching row; MultipleObjectsReturned iff two rows match |
| `Models.UserByEmail` | app/forms.py:48 | `User.objects.get(email=...)`: DoesNotExist iff no account has the address, Found gives the only account with it, MultipleObjectsReturned iff two accounts share it |
| `Models.CommentsOf` | app/views.py:81 | `Comment.objects.filter(article=...)` holds exactly the stored comments of that article, each as often as it is stored |
| `Models.CommentsExcept` | app/models.py:52 | the comments left after an article's deletion (CASCADE) are exactly those of other articles, each as often as before |
| `Models.NewUserDefaults` | app/models.py:9-11 | a registered user is unverified, has no secret, is no superuser, and carries the registration save time as `otp_created_at` |
| `Models.ResaveKeepsCategory` | app/models.py:23-25 | re-saving a category under its current name derives its current slug again and does not collide with another category's slug |
| `Models.OrderBy` | app/utils.py:32-38 | `order_by(<key>)` returns a permutation of the rows, ordered by the key ascending or descending |
| `Models.OrderBySortedIsIdentity` | app/utils.py:32-38 | rows already in the requested order come back unchanged |
| `Models.DefaultOrder` | app/models.py:41 | every unordered article query is a permutation of the table in descending `created_at` order |
| `Models.Site.InsertUser` | app/models.py:10 | inserting a user with a free username appends exactly that row, stamped with the save time, and keeps usernames unique |
| `Models.Site.SaveUser` | app/models.py:10 | saving a user rewrites only that row and stamps `otp_created_at` with the save time, whatever the save is for |
| `Models.Site.SaveCategory` | app/models.py:23-25 | the saved category's slug is `slugify(name)`; a slug held by another category fails the unique constraint and changes nothing |
| `Models.Site.InsertArticle` | app/models.py:32-48 | a new article gets the next primary key, `slug = slugify(title)`, both timestamps set to the save time and `view_count = 0`; a slug already in use fails and changes nothing |
| `Models.Site.UpdateArticle` | app/models.py:46-48 | re-saving an article derives the slug from the new title and restamps `updated_at`; creation time, owner and view count are unchanged |
| `Models.Site.SaveViewCount` | app/views.py:79 | `save(update_fields=['view_count'])` writes that column of that row and nothing else |
| `Models.Site.InsertComment` | app/views.py:139-143 | the comment row is appended as given |
| `Models.Site.DeleteArticle` | app/models.py:52 | deleting an article removes exactly its row and exactly its comments |
| `Models.Site.Deliver` | app/utils.py:16-22 | a delivered message is appended to the log of sent mail |
| `Utils.CodeMail` | app/utils.py:16-22 | `send_mail` to `[user.email]` sends one message to that address alone, or none when the address is empty |
| `Utils.SendOtp` | app/utils.py:7-26 | the call returns normally iff the mail backend succeeds or the user has no address; on failure the row is unchanged and nothing is sent; at most one mail goes out, only to the user's non-empty address; username, address and `verified` never change |
| `Utils.SendOtpSecret` | app/utils.py:9-10 | an existing secret is reused unchanged; a missing or empty one is replaced by the fresh secret |
| `Utils.SendOtpDelivered` | app/utils.py:13-26 | a delivered call sends the TOTP value of the user's secret now to the user's address (nothing when it is empty); the saved row has a non-empty secret and `otp_created_at == now` and is otherwise unchanged |
| `Utils.SendOtpFailure` | app/utils.py:16-26 | a failed delivery to an address persists no secret and no timestamp and sends nothing; an account without an address is saved exactly as on success |
| `Utils.SendOtpToEmail` | app/utils.py:7-26 | the method's effect on the user table and the mail log is that of `SendOtp` on the stored row |
| `Utils.SortArticles` | app/utils.py:29-40 | a permutation of the queryset: descending/ascending view count for most_viewed/least_viewed, descending/ascending `updated_at` for newest/oldest, the queryset unchanged for any other status and for None |
| `Utils.SortArticlesIdempotent` | app/utils.py:29-40 | sorting the sorted feed again by the same status changes nothing |
| `Utils.MostViewedExample` | app/utils.py:31-32 | view counts 5, 1, 9 come out 9, 5, 1 under most_viewed |
| `Utils.LeastViewedExample` | app/utils.py:33-34 | view counts 5, 1, 9 come out 1, 5, 9 under least_viewed |
| `Utils.UnknownStatusExample` | app/utils.py:39-40 | an unknown status and None return the rows in their given order |
| `Forms.ResolveLogin` | app/forms.py:34-58 | no attempt iff a field is missing; a success names an account that accepts the password and, with unique usernames, has the identifier as username or address; a multiple-accounts outcome means two accounts share the identifier as address |
| `Forms.Authenticate` | app/forms.py:42 | a success names an account with that username that accepts the password; with unique usernames it fails iff no such account accepts it |
| `Forms.MissingFieldSkipsAuthentication` | app/forms.py:40 | with the identifier or the password missing no authentication is attempted |
| `Forms.UsernameTriedFirst` | app/forms.py:42 | with unique usernames, whatever the addresses, an account whose username is the identifier and which accepts the password is the one signed in |
| `Forms.SharedAddressRaises` | app/forms.py:47-51 | when no username accepts the password and two accounts share the identifier as address, `get(email=...)` raises and clean does not catch it |
| `Forms.EmailFallback` | app/forms.py:43-51 | with unique usernames, when the username attempt fails, the only account with that address is signed in iff it accepts the password under its own username |
| `Forms.LoginSucceedsIff` | app/forms.py:34-58 | with unique usernames and addresses, sign-in succeeds iff some account has the identifier as username or e-mail address and accepts the password, and a success names such an account |
| `Forms.UniformLoginError` | app/forms.py:53-54 | with both fields given and unique addresses, every failure is the one InvalidCredentials error |
| `Forms.AliceExample` | app/forms.py:40-56 | "alice" and "alice@x.com" sign the same account in with the right password and fail identically with a wrong one |
| `Forms.LoginForm.constructor` | app/forms.py:30-32 | a new form carries its two fields, and `get_user()` returns None before any clean |
| `Forms.LoginForm.Clean` | app/forms.py:34-61 | `clean` ends as `ResolveLogin` says; what `get_user()` returns becomes the authenticated account on success and is otherwise unchanged, and the uniform error is raised exactly on InvalidCredentials |
| `Forms.UsernameErrors` | app/forms.py:85-89 | the username field passes iff it is non-empty and no account has it |
| `Forms.EmailErrors` | app/forms.py:91-95 | the address passes iff no account has it as entered |
| `Forms.PasswordErrors` | app/forms.py:71-75 | the password field passes iff it has at least six characters |
| `Forms.ConfirmErrors` | app/forms.py:65 | the required confirmation field passes iff it is non-empty |
| `Forms.PasswordColumnErrors` | app/forms.py:69 | the model's `password` column rejects a password of more than 128 characters, and only such a password |
| `Forms.RegistrationErrors` | app/forms.py:63-95 | `is_valid()` collects every field's errors, and a mismatch never comes with the password's required or too-short error or the confirmation's required error |
| `Forms.ShortPasswordRejected` | app/forms.py:71-75 | a password under six characters is rejected (as required or too short) and never draws a mismatch error |
| `Forms.MismatchIff` | app/forms.py:77-83 | the mismatch error is raised iff the password has at least six characters, the confirmation is present and the two differ |
| `Forms.TakenIdentityRejected` | app/forms.py:85-95 | a non-empty username is rejected as taken iff an account has it; an address is rejected iff an account has it |
| `Forms.RegistrationValidIff` | app/forms.py:63-95 | the form is valid iff the username is non-empty and free, the address is free, the password has six to 128 characters and the confirmation equals it |
| `Forms.PasswordExamples` | app/forms.py:72-82 | "abc" is too short; "abcdef" with "abcdeg" is a mismatch |
| `Forms.OtpFormErrors` | app/forms.py:107-108 | the OTP form accepts exactly codes of one to six characters |
| `Views.OtpPageStep` | app/views.py:181-195 | the GET never changes `verified`, the username or the address; only a sent code changes the row, and a code is sent only to an unverified user outside the cooldown, stamping the row now |
| `Views.VerifiedVisitIsInert` | app/views.py:183-195 | a verified user's GET of the OTP page sends nothing and changes nothing |
| `Views.CooldownBlocksResend` | app/views.py:186-188 | within three minutes of the stamp an unverified user gets the warning, no mail and no change |
| `Views.OutsideCooldownSendsOnce` | app/views.py:189-191 | without a stamp or with one at least three minutes old, one send_otp_to_email call happens: the code mail to the user's address and a row stamped now, or, only for an account with an address, an error and no change |
| `Views.VisitsKeepVerified` | app/views.py:181-195 | any number of visits of the OTP page leave `verified`, the username and the address as they were |
| `Views.VerifiedVisitsAreInert` | app/views.py:183-195 | a verified user's visits, however many, send nothing and change nothing |
| `Views.FreshRegistrationGetsNoCode` | app/models.py:10 | a user who opens the OTP page within three minutes of registering gets the warning and no code |
| `Views.NoCodeWithinWindow` | app/views.py:186-191 | any number of visits within three minutes of the stamp send nothing and leave the row as it was |
| `Views.OneCodePerWindow` | app/views.py:186-191 | a visit that delivers a code, followed by any visits in the next three minutes, delivers exactly that one code mail (none to an account without an address) |
| `Views.ThirdVisitAfterWindow` | app/views.py:186-191 | for an account with an address, two visits within three minutes send one code and a third after the window sends a second; without an address none is sent |
| `Views.OtpPage` | app/views.py:181-195 | the GET changes the user table and mail log exactly as `OtpPageStep` says, keeps every verified user verified, and is a server error for an anonymous visitor |
| `Views.OtpSubmitStep` | app/views.py:197-209 | a server error iff the user has no secret; the user ends verified iff they were or the code was accepted; only an accepted code, one the oracle accepts for the user's secret, changes the row: it sets `verified` and restamps it |
| `Views.AcceptedCodeVerifies` | app/views.py:200-205 | an accepted code sets `verified` and saves the user, which restamps it |
| `Views.RejectedCodeChangesNothing` | app/views.py:206-209 | a rejected code leaves the user as it was |
| `Views.AcceptedCodeEndsMail` | app/views.py:183-205 | after an accepted code, no later visit of the OTP page sends a code or changes the row |
| `Views.OtpSubmit` | app/views.py:197-209 | an invalid form changes nothing; otherwise the user table changes as `OtpSubmitStep` says, and no verified user becomes unverified |
| `Views.GuardRejects` | app/views.py:106-110 | the guard rejects every anonymous visitor and lets the owner and every superuser through |
| `Views.GuardAllowsIff` | app/views.py:106-110 | update and delete pass the guard iff the requester is the article's owner or a superuser; an anonymous visitor never passes |
| `Views.CountView` | app/views.py:78 | a view raises the count by exactly one and changes nothing else in the row |
| `Views.ViewArticle` | app/views.py:75-83 | an unknown slug is a 404; otherwise only that article's view count goes up by one and its comments are listed |
| `Views.CreateArticle` | app/views.py:87-95 | anonymous gets the login redirect, an invalid form changes nothing, a slug collision is a server error, otherwise the requester's article is appended |
| `Views.EditArticle` | app/views.py:97-110 | 404 for an unknown slug, 403 when the guard rejects, and otherwise the article is re-saved with the new title, category and slug; nothing changes on any failure |
| `Views.RemoveArticle` | app/views.py:113-121 | 404 for an unknown key, 403 when the guard rejects, and otherwise the article and its comments are deleted; nothing changes on a failure |
| `Views.CreateComment` | app/views.py:126-148 | 404 before the login check, then the login redirect; an empty text is a server error; otherwise the stored comment belongs to the article the slug names and to the requesting user; nothing changes on a failure |
| `Views.Register` | app/views.py:158-163 | an invalid form changes nothing; a valid one appends the new unverified user with the normalised address and the hashed password, and signs them in |
| `Views.NormalisedAddressCollides` | app/forms.py:91-95 | an address that normalises to a stored one passes registration; the store then has two accounts with that address, `get(email=...)` raises, and a login by it that no username accepts is a server error |
| `Views.SignIn` | app/views.py:166-173 | for any store, the session holds exactly the account `LoginForm.clean` authenticated; shared addresses are a server error |
| `Views.Feed` | app/views.py:29-33 | the feed is a permutation of all articles, newest-created first unless the status names another order, and it is in the order each of the four statuses names |

## Left out

- I/O of every kind is outside the model: SMTP, the database engine, templates, `messages` and redirect URLs. Delivery is reduced to the `deliveryOk` flag and a log of delivered mail.
- The TOTP algorithm (HMAC, base32, the 30-second step and the verification window) is left out; it is foreign code, so generation and verification are oracles with no assumed relation between them.
- Random generation of secrets is left out; `random_base32()` is a parameter. `Utils.SendOtpDelivered` assumes that parameter is a 32-character base32 string.
- Password hashing and `authenticate`'s backend are left out (`is_active`, the request argument, other backends). They are the function `hash` and the predicate `passwordOk`.
- pytils transliteration is left out; `slugify` is an uninterpreted function.
- `timezone.now()` is read three times in the OTP page GET: in the view, inside `send_otp_to_email`, and by `auto_now` when the user is saved. The model uses one `now` for all three. The stamp is therefore exactly the time the cooldown was checked against.
- A new article's `created_at` (`auto_now_add`) and `updated_at` (`auto_now`) come from two reads of the clock, one per field; `Models.Site.InsertArticle` gives both the same `now`.
- Sessions and `login()` are left out: a successful registration or sign-in only returns the new session's user.
- Pagination, the title search (`icontains`), the category feed and its `Category.objects.get` are left out as listing glue.
- The GET handlers that render the create, update, delete and comment forms are left out; they change nothing.
- `ArticleCreateForm`'s description and thumbnail fields are left out, together with CKEditor and the widget styling.
- Django's built-in field validation is reduced to required fields and lengths. Username character rules, e-mail syntax, the 150-character username limit and whitespace stripping are left out. The 128-character limit of the `password` column is modelled (`Forms.PasswordColumnErrors`).
- The username's Unicode NFKC normalisation in `AbstractUser.clean` is left out with the rest of the character handling. The unique check runs on the stored username, so usernames stay unique either way.
- Deleting users or categories and the admin site are left out. Their cascades and ownerless articles left behind by the admin are not modelled, though the owner field is nullable.
- `view_count` is an unbounded integer; the database column's 32-bit overflow is not modelled.
- Concurrency is left out. Each request runs alone, so lost view-count updates and races between cooldown checks are not modelled.
- `Models.OrderBySortedIsIdentity`: SQL leaves the order of rows with equal keys open. The model fixes a stable tie order, so this lemma and `Utils.SortArticlesIdempotent` speak of that chosen order.
- app/urls.py, app/context_processors.py, app/templatetags/ and `LogoutView` are not part of this model.
