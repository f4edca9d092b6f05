/** The blog's persistent records (app/models.py) and the database that holds
    them. A table is a sequence of rows; a user's primary key is its position
    in `users` (users are never deleted here), an article carries its own
    primary key because articles are deleted. Saving a row is a method of the
    `Site`, which also keeps the log of mail the site has delivered. */
module Models {
  import opened Queries

  /** A point in time, in microseconds (the resolution of Django's DateTimeField). */
  type Time = int
  type UserId = nat
  type ArticleId = nat

  /** A user row: the fields of AbstractUser the blog reads, plus the three it adds. */
  datatype Account = Account(
    username: string,
    email: string,
    passwordHash: string,
    isSuperuser: bool,
    otpSecret: Option<string>,      // null until the first code is sent
    otpCreatedAt: Option<Time>,     // auto_now: restamped by every save
    verified: bool)

  /** An unsaved user instance as the registration form builds it: field defaults apply. */
  function NewAccount(username: string, email: string, passwordHash: string): Account {
    Account(username, email, passwordHash, false, None, None, false)
  }

  /** What `auto_now=True` does to a user on every save: stamp the save time. */
  function AutoNow(u: Account, now: Time): Account {
    u.(otpCreatedAt := Some(now))
  }

  /** A registered user starts unverified, without a secret, not a superuser,
      and stamped with the time of the registration save. */
  lemma NewUserDefaults(username: string, email: string, passwordHash: string, now: Time)
    ensures var u := AutoNow(NewAccount(username, email, passwordHash), now);
      && !u.verified && u.otpSecret.None? && !u.isSuperuser
      && u.otpCreatedAt == Some(now)
      && u.username == username && u.email == email && u.passwordHash == passwordHash
  {
  }

  datatype Category = Category(name: string, slug: string)

  datatype Article = Article(
    id: ArticleId,
    owner: Option<UserId>,          // the `user` foreign key, nullable
    title: string,
    category: nat,                  // index into the categories table
    slug: string,
    createdAt: Time,                // auto_now_add
    updatedAt: Time,                // auto_now
    viewCount: int)

  datatype Comment = Comment(user: UserId, article: ArticleId, text: string, createdAt: Time, isUpdated: bool)

  /** One delivered message: its recipient list and the code it carries. */
  datatype Mail = Mail(recipients: seq<string>, code: string)

  // ----- Lookups on the tables -----

  function UserByUsername(users: seq<Account>, username: string): (r: Option<UserId>)
    ensures r.Some? ==> r.value < |users| && users[r.value].username == username
    ensures r.None? <==> forall i :: 0 <= i < |users| ==> users[i].username != username
  {
    IndexWhere(users, (a: Account) => a.username == username)
  }

  /** `User.objects.get(email=...)`. */
  function UserByEmail(users: seq<Account>, email: string): (r: GetResult)
    ensures r.DoesNotExist? <==> forall i :: 0 <= i < |users| ==> users[i].email != email
    ensures r.Found? ==> r.index < |users| && users[r.index].email == email
    ensures r.Found? ==> forall i :: 0 <= i < |users| && i != r.index ==> users[i].email != email
    ensures r.MultipleObjectsReturned? <==>
      exists i, j :: 0 <= i < j < |users| && users[i].email == email && users[j].email == email
  {
    GetWhere(users, (a: Account) => a.email == email)
  }

  /** `User.objects.filter(username=...).exists()`. */
  predicate UsernameInUse(users: seq<Account>, username: string) {
    UserByUsername(users, username).Some?
  }

  /** `User.objects.filter(email=...).exists()`. */
  predicate EmailInUse(users: seq<Account>, email: string) {
    !UserByEmail(users, email).DoesNotExist?
  }

  function ArticleBySlug(articles: seq<Article>, slug: string): (r: Option<nat>)
    ensures r.Some? ==> r.value < |articles| && articles[r.value].slug == slug
    ensures r.None? <==> forall i :: 0 <= i < |articles| ==> articles[i].slug != slug
  {
    IndexWhere(articles, (a: Article) => a.slug == slug)
  }

  function ArticleByPk(articles: seq<Article>, pk: ArticleId): (r: Option<nat>)
    ensures r.Some? ==> r.value < |articles| && articles[r.value].id == pk
    ensures r.None? <==> forall i :: 0 <= i < |articles| ==> articles[i].id != pk
  {
    IndexWhere(articles, (a: Article) => a.id == pk)
  }

  /** `Comment.objects.filter(article=...)`. */
  function CommentsOf(comments: seq<Comment>, article: ArticleId): (r: seq<Comment>)
    ensures forall c :: c in r <==> c in comments && c.article == article
    ensures forall c: Comment :: multiset(r)[c] == if c.article == article then multiset(comments)[c] else 0
  {
    Filter(comments, (c: Comment) => c.article == article)
  }

  /** The comments that survive deleting an article (on_delete=CASCADE). */
  function CommentsExcept(comments: seq<Comment>, article: ArticleId): (r: seq<Comment>)
    ensures forall c :: c in r <==> c in comments && c.article != article
    ensures forall c: Comment :: c.article != article ==> multiset(r)[c] == multiset(comments)[c]
  {
    Filter(comments, (c: Comment) => c.article != article)
  }

  /** Whether a row other than `except` already holds `slug` (a unique column). */
  predicate CategorySlugTaken(categories: seq<Category>, slug: string, except: Option<nat>) {
    exists j :: 0 <= j < |categories| && Some(j) != except && categories[j].slug == slug
  }

  predicate ArticleSlugTaken(articles: seq<Article>, slug: string, except: Option<nat>) {
    exists j :: 0 <= j < |articles| && Some(j) != except && articles[j].slug == slug
  }

  function ArticleIds(articles: seq<Article>): set<ArticleId> {
    set a | a in articles :: a.id
  }

  // ----- Ordering (Meta.ordering and queryset.order_by) -----

  /** The columns articles are ordered by. */
  datatype SortKey = ViewCount | UpdatedAt | CreatedAt

  /** An `order_by` argument: a column, descending when written with a leading '-'. */
  datatype Ordering = Ordering(key: SortKey, descending: bool)

  function KeyOf(a: Article, k: SortKey): int {
    match k
    case ViewCount => a.viewCount
    case UpdatedAt => a.updatedAt
    case CreatedAt => a.createdAt
  }

  /** `a` may be listed before `b` under ordering `o`. */
  predicate Precedes(a: Article, b: Article, o: Ordering) {
    if o.descending then KeyOf(a, o.key) >= KeyOf(b, o.key) else KeyOf(a, o.key) <= KeyOf(b, o.key)
  }

  ghost predicate SortedBy(s: seq<Article>, o: Ordering) {
    forall i, j :: 0 <= i < j < |s| ==> Precedes(s[i], s[j], o)
  }

  function InsertOrdered(x: Article, s: seq<Article>, o: Ordering): (r: seq<Article>)
    ensures multiset(r) == multiset(s) + multiset{x}
  {
    if s == [] then [x]
    else if Precedes(x, s[0], o) then [x] + s
    else
      assert s == [s[0]] + s[1..];
      [s[0]] + InsertOrdered(x, s[1..], o)
  }

  lemma SortedTail(s: seq<Article>, o: Ordering)
    requires s != [] && SortedBy(s, o)
    ensures SortedBy(s[1..], o)
  {
    forall i, j | 0 <= i < j < |s[1..]| ensures Precedes(s[1..][i], s[1..][j], o) {
      assert s[1..][i] == s[i + 1] && s[1..][j] == s[j + 1];
    }
  }

  lemma SortedCons(h: Article, t: seq<Article>, o: Ordering)
    requires SortedBy(t, o) && forall y :: y in t ==> Precedes(h, y, o)
    ensures SortedBy([h] + t, o)
  {
    var r := [h] + t;
    forall i, j | 0 <= i < j < |r| ensures Precedes(r[i], r[j], o) {
      assert r[j] == t[j - 1];
      if i > 0 {
        assert r[i] == t[i - 1];
      }
    }
  }

  lemma {:induction false} InsertOrderedKeepsSorted(x: Article, s: seq<Article>, o: Ordering)
    requires SortedBy(s, o)
    ensures SortedBy(InsertOrdered(x, s, o), o)
  {
    if s == [] {
      assert InsertOrdered(x, s, o) == [x];
    } else if Precedes(x, s[0], o) {
      forall y | y in s ensures Precedes(x, y, o) {
        var k :| 0 <= k < |s| && s[k] == y;
        if k > 0 { assert Precedes(s[0], s[k], o); }
      }
      SortedCons(x, s, o);
    } else {
      var t := InsertOrdered(x, s[1..], o);
      SortedTail(s, o);
      InsertOrderedKeepsSorted(x, s[1..], o);
      forall y | y in t ensures Precedes(s[0], y, o) {
        assert y in multiset(t);
        if y != x {
          assert y in s[1..];
          var k :| 0 <= k < |s[1..]| && s[1..][k] == y;
          assert s[k + 1] == y;
        }
      }
      SortedCons(s[0], t, o);
    }
  }

  /** `queryset.order_by(o)`: the same rows, ordered by `o`; the order among
      equal keys is the database's choice. */
  function OrderBy(s: seq<Article>, o: Ordering): (r: seq<Article>)
    ensures multiset(r) == multiset(s)
    ensures SortedBy(r, o)
  {
    if s == [] then []
    else
      assert s == [s[0]] + s[1..];
      var rest := OrderBy(s[1..], o);
      InsertOrderedKeepsSorted(s[0], rest, o);
      InsertOrdered(s[0], rest, o)
  }

  /** Ordering rows that are already in order leaves them where they are. */
  lemma {:induction false} OrderBySortedIsIdentity(s: seq<Article>, o: Ordering)
    requires SortedBy(s, o)
    ensures OrderBy(s, o) == s
  {
    if s != [] {
      SortedTail(s, o);
      OrderBySortedIsIdentity(s[1..], o);
      if |s| > 1 {
        assert Precedes(s[0], s[1], o);
      }
      assert s == [s[0]] + s[1..];
    }
  }

  /** Article's `Meta.ordering = ['-created_at']`: every unordered query of the article table. */
  const NEWEST_FIRST := Ordering(CreatedAt, true)

  function DefaultOrder(articles: seq<Article>): (r: seq<Article>)
    ensures multiset(r) == multiset(articles)
    ensures SortedBy(r, NEWEST_FIRST)
  {
    OrderBy(articles, NEWEST_FIRST)
  }

  // ----- The database invariant -----

  /** The unique constraint of AbstractUser's `username` column. */
  ghost predicate UsernamesUnique(users: seq<Account>) {
    forall i, j :: 0 <= i < j < |users| ==> users[i].username != users[j].username
  }

  /** No two accounts share an e-mail address. The `email` column has no
      unique constraint, so this is not part of the database invariant; the
      login lemmas that need it say so. */
  ghost predicate EmailsUnique(users: seq<Account>) {
    forall i, j :: 0 <= i < j < |users| ==> users[i].email != users[j].email
  }

  ghost predicate CategoriesValid(categories: seq<Category>, slugify: string -> string) {
    && (forall i :: 0 <= i < |categories| ==> categories[i].slug == slugify(categories[i].name))
    && (forall i, j :: 0 <= i < j < |categories| ==> categories[i].slug != categories[j].slug)
  }

  /** Saving a stored category again under its own name succeeds and
      rewrites the row it already is. */
  lemma ResaveKeepsCategory(categories: seq<Category>, slugify: string -> string, k: nat)
    requires CategoriesValid(categories, slugify) && k < |categories|
    ensures Category(categories[k].name, slugify(categories[k].name)) == categories[k]
    ensures !CategorySlugTaken(categories, slugify(categories[k].name), Some(k))
  {
  }

  ghost predicate ArticleRowValid(a: Article, slugify: string -> string, userCount: nat, categoryCount: nat, nextId: nat) {
    && a.slug == slugify(a.title)
    && a.id < nextId
    && a.category < categoryCount
    && (a.owner.Some? ==> a.owner.value < userCount)
    && a.viewCount >= 0
  }

  ghost predicate ArticlesValid(articles: seq<Article>, slugify: string -> string, userCount: nat, categoryCount: nat, nextId: nat) {
    && (forall i :: 0 <= i < |articles| ==> ArticleRowValid(articles[i], slugify, userCount, categoryCount, nextId))
    && (forall i, j :: 0 <= i < j < |articles| ==> articles[i].slug != articles[j].slug && articles[i].id != articles[j].id)
  }

  ghost predicate CommentsValid(comments: seq<Comment>, articles: seq<Article>, userCount: nat) {
    forall c :: c in comments ==> c.user < userCount && c.article in ArticleIds(articles)
  }

  lemma ArticleIdsAppend(articles: seq<Article>, a: Article)
    ensures ArticleIds(articles + [a]) == ArticleIds(articles) + {a.id}
  {
    assert forall b :: b in articles + [a] <==> b in articles || b == a;
  }

  /** Rewriting a row without touching its primary key keeps the set of keys. */
  lemma ArticleIdsUpdate(articles: seq<Article>, k: nat, a: Article)
    requires k < |articles| && a.id == articles[k].id
    ensures ArticleIds(articles[k := a]) == ArticleIds(articles)
  {
    var updated := articles[k := a];
    forall id | id in ArticleIds(articles) ensures id in ArticleIds(updated) {
      var b :| b in articles && b.id == id;
      var m :| 0 <= m < |articles| && articles[m] == b;
      if m == k { assert updated[k] == a; } else { assert updated[m] == b; }
    }
    forall id | id in ArticleIds(updated) ensures id in ArticleIds(articles) {
      var b :| b in updated && b.id == id;
      var m :| 0 <= m < |updated| && updated[m] == b;
      if m == k { assert articles[k].id == id; } else { assert articles[m] == b; }
    }
  }

  /** Removing row `k` from a table of articles with distinct primary keys
      removes exactly that key. */
  lemma RemoveArticleIds(articles: seq<Article>, k: nat)
    requires k < |articles|
    requires forall i, j :: 0 <= i < j < |articles| ==> articles[i].id != articles[j].id
    ensures ArticleIds(articles[..k] + articles[k + 1..]) == ArticleIds(articles) - {articles[k].id}
  {
    var rest := articles[..k] + articles[k + 1..];
    forall id | id in ArticleIds(articles) - {articles[k].id} ensures id in ArticleIds(rest) {
      var a :| a in articles && a.id == id;
      var m :| 0 <= m < |articles| && articles[m] == a;
      assert m != k;
      if m < k { assert rest[m] == a; } else { assert rest[m - 1] == a; }
    }
    forall id | id in ArticleIds(rest) ensures id in ArticleIds(articles) - {articles[k].id} {
      var a :| a in rest && a.id == id;
      var m :| 0 <= m < |rest| && rest[m] == a;
      var n := if m < k then m else m + 1;
      assert articles[n] == a && n != k;
    }
  }

  /** The site's persistent state: the four tables and the log of delivered mail. */
  class Site {
    /** pytils' `slugify`, which the model treats as an unknown function. */
    const slugify: string -> string
    var users: seq<Account>
    var categories: seq<Category>
    var articles: seq<Article>
    var nextArticleId: ArticleId
    var comments: seq<Comment>
    var outbox: seq<Mail>

    /** The unique and foreign-key constraints and the derived slugs. */
    ghost predicate Valid()
      reads this
    {
      && UsernamesUnique(users)
      && CategoriesValid(categories, slugify)
      && ArticlesValid(articles, slugify, |users|, |categories|, nextArticleId)
      && CommentsValid(comments, articles, |users|)
    }

    /** `request.user`: anonymous (None) or an existing account. */
    predicate IsActor(actor: Option<UserId>)
      reads this
    {
      actor.None? || actor.value < |users|
    }

    constructor (slugify: string -> string)
      ensures Valid() && this.slugify == slugify
      ensures users == [] && categories == [] && articles == [] && comments == [] && outbox == []
      ensures nextArticleId == 0
    {
      this.slugify := slugify;
      users, categories, articles, comments, outbox := [], [], [], [], [];
      nextArticleId := 0;
    }

    /** INSERT of a new user row; `auto_now` stamps otp_created_at with the save time.
        Only the username column is unique. */
    method InsertUser(u: Account, now: Time) returns (id: UserId)
      requires Valid()
      requires !UsernameInUse(users, u.username)
      modifies this`users
      ensures Valid()
      ensures id == |old(users)| && users == old(users) + [AutoNow(u, now)]
    {
      id := |users|;
      users := users + [AutoNow(u, now)];
    }

    /** UPDATE of an existing user row (`user.save()`); `auto_now` restamps otp_created_at. */
    method SaveUser(id: UserId, u: Account, now: Time)
      requires Valid() && id < |users|
      requires u.username == users[id].username
      modifies this`users
      ensures Valid()
      ensures users == old(users)[id := AutoNow(u, now)]
      ensures users[id].otpCreatedAt == Some(now)
    {
      users := users[id := AutoNow(u, now)];
    }

    /** `Category.save()`: derive the slug from the name, then INSERT (index None)
        or UPDATE; a slug held by another category violates the unique constraint. */
    method SaveCategory(index: Option<nat>, name: string) returns (saved: bool)
      requires Valid() && (index.Some? ==> index.value < |categories|)
      modifies this`categories
      ensures Valid()
      ensures saved <==> !CategorySlugTaken(old(categories), slugify(name), index)
      ensures !saved ==> categories == old(categories)
      ensures saved && index.None? ==> categories == old(categories) + [Category(name, slugify(name))]
      ensures saved && index.Some? ==> categories == old(categories)[index.value := Category(name, slugify(name))]
    {
      var slug := slugify(name);
      if CategorySlugTaken(categories, slug, index) {
        return false;
      }
      match index {
        case None => categories := categories + [Category(name, slug)];
        case Some(k) => categories := categories[k := Category(name, slug)];
      }
      saved := true;
    }

    /** `Article.save()` of a new article: slug from the title, both timestamps
        set to the save time, view_count at its default 0. */
    method InsertArticle(owner: Option<UserId>, title: string, category: nat, now: Time) returns (id: Option<ArticleId>)
      requires Valid() && IsActor(owner) && category < |categories|
      modifies this`articles, this`nextArticleId
      ensures Valid()
      ensures id.None? <==> ArticleSlugTaken(old(articles), slugify(title), None)
      ensures id.None? ==> articles == old(articles) && nextArticleId == old(nextArticleId)
      ensures id.Some? ==> id.value == old(nextArticleId) && nextArticleId == old(nextArticleId) + 1
      ensures id.Some? ==>
        articles == old(articles) + [Article(id.value, owner, title, category, slugify(title), now, now, 0)]
    {
      var slug := slugify(title);
      if ArticleSlugTaken(articles, slug, None) {
        return None;
      }
      ArticleIdsAppend(articles, Article(nextArticleId, owner, title, category, slug, now, now, 0));
      articles := articles + [Article(nextArticleId, owner, title, category, slug, now, now, 0)];
      id := Some(nextArticleId);
      nextArticleId := nextArticleId + 1;
    }

    /** `Article.save()` of the edited article in row `k`: the slug is derived
        again from the (possibly new) title and updated_at is restamped. */
    method UpdateArticle(k: nat, title: string, category: nat, now: Time) returns (saved: bool)
      requires Valid() && k < |articles| && category < |categories|
      modifies this`articles
      ensures Valid()
      ensures saved <==> !ArticleSlugTaken(old(articles), slugify(title), Some(k))
      ensures !saved ==> articles == old(articles)
      ensures saved ==> articles == old(articles)[k :=
        old(articles)[k].(title := title, category := category, slug := slugify(title), updatedAt := now)]
    {
      var slug := slugify(title);
      if ArticleSlugTaken(articles, slug, Some(k)) {
        return false;
      }
      ArticleIdsUpdate(articles, k, articles[k].(title := title, category := category, slug := slug, updatedAt := now));
      articles := articles[k := articles[k].(title := title, category := category, slug := slug, updatedAt := now)];
      saved := true;
    }

    /** `article.save(update_fields=['view_count'])`: only that column is written. */
    method SaveViewCount(k: nat, viewCount: int)
      requires Valid() && k < |articles| && viewCount >= 0
      modifies this`articles
      ensures Valid()
      ensures articles == old(articles)[k := old(articles)[k].(viewCount := viewCount)]
    {
      ArticleIdsUpdate(articles, k, articles[k].(viewCount := viewCount));
      articles := articles[k := articles[k].(viewCount := viewCount)];
    }

    /** INSERT of a comment row. */
    method InsertComment(c: Comment)
      requires Valid() && c.user < |users| && c.article in ArticleIds(articles)
      modifies this`comments
      ensures Valid()
      ensures comments == old(comments) + [c]
    {
      comments := comments + [c];
    }

    /** `article.delete()`: the row goes, and its comments with it (on_delete=CASCADE). */
    method DeleteArticle(k: nat)
      requires Valid() && k < |articles|
      modifies this`articles, this`comments
      ensures Valid()
      ensures articles == old(articles[..k] + articles[k + 1..])
      ensures comments == CommentsExcept(old(comments), old(articles[k].id))
    {
      var id := articles[k].id;
      RemoveArticleIds(articles, k);
      var rest := articles[..k] + articles[k + 1..];
      forall i | 0 <= i < |rest| ensures rest[i] == articles[if i < k then i else i + 1] {
      }
      articles := rest;
      comments := CommentsExcept(comments, id);
    }

    /** A message handed to the mail backend and delivered. */
    method Deliver(m: Mail)
      requires Valid()
      modifies this`outbox
      ensures Valid()
      ensures outbox == old(outbox) + [m]
    {
      outbox := outbox + [m];
    }
  }
}
