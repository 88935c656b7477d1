/**
 * The request handlers of blogapp/views.py over an in-memory store.
 *
 * The handlers that write (`creer_article_view`, `modifier_article_view`,
 * `supprimer_article_view`, `ajouter_commentaire_view`) are methods of
 * `BlogStore`; the read-only views (`accueil_view`,
 * `profil_utilisateur_view`) are functions of the store's tables.
 *
 * A request is reduced to what the handlers look at: the logged-in user
 * (`None` for an anonymous visitor, whom `@login_required` sends to the
 * login page), whether the method is POST, the form's verdict and the
 * submitted fields. What a handler sends back is a `Response`.
 */
module Views {
  import opened Models
  import opened Ordering
  import opened Pagination

  /** Where a handler sends the browser, or which page it renders. */
  datatype Response =
    | Detail(pk: ArticleId)       // redirect to `detail_article`
    | Home                        // redirect to `accueil`
    | Form                        // render the (create, edit or sign-up) form again
    | ConfirmPage(pk: ArticleId)  // render the deletion confirmation
    | NotFound                    // `get_object_or_404` failed
    | LoginRedirect               // `@login_required` turned the visitor away

  /** Only an article's author may edit or delete it. */
  predicate CanEditOrDelete(a: Article, actor: UserName)
  {
    a.auteur == actor
  }

  /** An article's author may not comment on it. */
  predicate CanComment(a: Article, actor: UserName)
  {
    a.auteur != actor
  }

  /**
   * `ArticleForm.is_valid()`: whatever else the form checks (`formValid`),
   * and the `max_length` of `titre` that the model declares.
   */
  predicate ArticleFormAccepts(formValid: bool, titre: string)
  {
    formValid && |titre| <= TitreMaxLength
  }

  class BlogStore {
    var users: set<UserName>
    var articles: map<ArticleId, Article>
    var comments: map<CommentId, Commentaire>
    /** The next primary key of each table (the database's sequences). */
    var nextArticleId: ArticleId
    var nextCommentId: CommentId
    /** The clock `auto_now_add` and `auto_now` read; every save ticks it. */
    var clock: Stamp

    /**
     * The tables are consistent, every key was handed out by its sequence,
     * every stamp by the clock, and later rows carry later stamps.
     */
    ghost predicate Valid()
      reads this
    {
      && Consistent(users, articles, comments)
      && (forall k :: k in articles ==>
            k < nextArticleId && articles[k].dateCreation <= articles[k].dateMiseAJour < clock)
      && (forall c :: c in comments ==> c < nextCommentId && comments[c].dateCreation < clock)
      && StampsFollowIds(articles)
      && CommentStampsFollowIds(comments)
    }

    /** A logged-in user is one the identity store knows. */
    ghost predicate SessionUser(actor: Option<UserName>)
      reads this
    {
      actor.Some? ==> actor.value in users
    }

    constructor ()
      ensures Valid()
      ensures users == {} && articles == map[] && comments == map[]
      ensures nextArticleId == 0 && nextCommentId == 0 && clock == 0
    {
      users := {};
      articles := map[];
      comments := map[];
      nextArticleId := 0;
      nextCommentId := 0;
      clock := 0;
    }

    /**
     * The identity store's side of `inscription_view`: a valid POST adds
     * the new username, which must not be taken yet, and goes home.
     */
    method RegisterUser(username: UserName, post: bool, formValid: bool) returns (resp: Response)
      requires Valid()
      modifies this
      ensures Valid()
      ensures post && formValid && username !in old(users) ==>
        resp == Home && users == old(users) + {username}
        && articles == old(articles) && comments == old(comments)
        && nextArticleId == old(nextArticleId) && nextCommentId == old(nextCommentId) && clock == old(clock)
      ensures !(post && formValid && username !in old(users)) ==> resp == Form && unchanged(this)
    {
      if post && formValid && username !in users {
        users := users + {username};
        return Home;
      }
      return Form;
    }

    /**
     * `creer_article_view`: a valid POST saves a new article whose
     * `auteur` is the current user and redirects to it; anything else
     * shows the form and saves nothing.
     */
    method CreerArticle(actor: Option<UserName>, post: bool, formValid: bool, titre: string, contenu: string)
      returns (resp: Response)
      requires Valid() && SessionUser(actor)
      modifies this
      ensures Valid()
      ensures AuteursKept(old(articles), articles)
      ensures actor.None? ==> resp == LoginRedirect && unchanged(this)
      ensures actor.Some? && !(post && ArticleFormAccepts(formValid, titre)) ==> resp == Form && unchanged(this)
      ensures actor.Some? && post && ArticleFormAccepts(formValid, titre) ==>
        var pk := old(nextArticleId);
        && resp == Detail(pk)
        && pk !in old(articles)
        && articles == old(articles)[pk := Article(titre, contenu, actor.value, old(clock), old(clock))]
        && users == old(users) && comments == old(comments)
        && nextArticleId == pk + 1 && nextCommentId == old(nextCommentId) && clock == old(clock) + 1
    {
      if actor.None? {
        return LoginRedirect;
      }
      if post && ArticleFormAccepts(formValid, titre) {
        var pk := nextArticleId;
        articles := articles[pk := Article(titre, contenu, actor.value, clock, clock)];
        nextArticleId := nextArticleId + 1;
        clock := clock + 1;
        return Detail(pk);
      }
      return Form;
    }

    /**
     * `modifier_article_view`: only the author gets anywhere; a valid POST
     * from the author stores the new `titre` and `contenu` (and the update
     * stamp), keeping `auteur` and `date_creation`.
     */
    method ModifierArticle(actor: Option<UserName>, pk: ArticleId, post: bool, formValid: bool, titre: string, contenu: string)
      returns (resp: Response)
      requires Valid() && SessionUser(actor)
      modifies this
      ensures Valid()
      ensures AuteursKept(old(articles), articles)
      ensures actor.None? ==> resp == LoginRedirect && unchanged(this)
      ensures actor.Some? && pk !in old(articles) ==> resp == NotFound && unchanged(this)
      ensures actor.Some? && pk in old(articles) && !CanEditOrDelete(old(articles)[pk], actor.value) ==>
        resp == Detail(pk) && unchanged(this)
      ensures actor.Some? && pk in old(articles) && CanEditOrDelete(old(articles)[pk], actor.value) ==>
        if post && ArticleFormAccepts(formValid, titre) then
          && resp == Detail(pk)
          && articles == old(articles)[pk := old(articles)[pk].(titre := titre, contenu := contenu, dateMiseAJour := old(clock))]
          && users == old(users) && comments == old(comments)
          && nextArticleId == old(nextArticleId) && nextCommentId == old(nextCommentId) && clock == old(clock) + 1
        else
          resp == Form && unchanged(this)
    {
      if actor.None? {
        return LoginRedirect;
      }
      var found := Fetch(articles, pk);
      if found.None? {
        return NotFound;
      }
      var article := found.value;
      if !CanEditOrDelete(article, actor.value) {
        return Detail(pk);
      }
      if post && ArticleFormAccepts(formValid, titre) {
        articles := articles[pk := article.(titre := titre, contenu := contenu, dateMiseAJour := clock)];
        clock := clock + 1;
        return Detail(pk);
      }
      return Form;
    }

    /**
     * `supprimer_article_view`: only the author gets anywhere; a GET shows
     * the confirmation page, a POST deletes the article and, by the cascade,
     * its comments.
     */
    method SupprimerArticle(actor: Option<UserName>, pk: ArticleId, post: bool) returns (resp: Response)
      requires Valid() && SessionUser(actor)
      modifies this
      ensures Valid()
      ensures AuteursKept(old(articles), articles)
      ensures actor.None? ==> resp == LoginRedirect && unchanged(this)
      ensures actor.Some? && pk !in old(articles) ==> resp == NotFound && unchanged(this)
      ensures actor.Some? && pk in old(articles) && !CanEditOrDelete(old(articles)[pk], actor.value) ==>
        resp == Detail(pk) && unchanged(this)
      ensures actor.Some? && pk in old(articles) && CanEditOrDelete(old(articles)[pk], actor.value) ==>
        if post then
          && resp == Home
          && articles == old(articles) - {pk}
          && comments == WithoutArticles(old(comments), {pk})
          && users == old(users)
          && nextArticleId == old(nextArticleId) && nextCommentId == old(nextCommentId) && clock == old(clock)
        else
          resp == ConfirmPage(pk) && unchanged(this)
    {
      if actor.None? {
        return LoginRedirect;
      }
      var found := Fetch(articles, pk);
      if found.None? {
        return NotFound;
      }
      if !CanEditOrDelete(found.value, actor.value) {
        return Detail(pk);
      }
      if post {
        DeleteArticleCascade(users, articles, comments, pk);
        articles := articles - {pk};
        comments := WithoutArticles(comments, {pk});
        return Home;
      }
      return ConfirmPage(pk);
    }

    /**
     * `ajouter_commentaire_view`: the article's author is sent back to the
     * article; for anyone else a valid POST saves one comment on that
     * article, by that user. Every outcome but the two failures of the
     * lookup is a redirect to the article.
     */
    method AjouterCommentaire(actor: Option<UserName>, pk: ArticleId, post: bool, formValid: bool, contenu: string)
      returns (resp: Response)
      requires Valid() && SessionUser(actor)
      modifies this
      ensures Valid()
      ensures articles == old(articles)
      ensures actor.None? ==> resp == LoginRedirect && unchanged(this)
      ensures actor.Some? && pk !in old(articles) ==> resp == NotFound && unchanged(this)
      ensures actor.Some? && pk in old(articles) ==> resp == Detail(pk)
      ensures actor.Some? && pk in old(articles) && !(CanComment(old(articles)[pk], actor.value) && post && formValid) ==>
        unchanged(this)
      ensures actor.Some? && pk in old(articles) && CanComment(old(articles)[pk], actor.value) && post && formValid ==>
        var c := old(nextCommentId);
        && c !in old(comments)
        && comments == old(comments)[c := Commentaire(pk, actor.value, contenu, old(clock))]
        && users == old(users)
        && nextArticleId == old(nextArticleId) && nextCommentId == c + 1 && clock == old(clock) + 1
    {
      if actor.None? {
        return LoginRedirect;
      }
      var found := Fetch(articles, pk);
      if found.None? {
        return NotFound;
      }
      if !CanComment(found.value, actor.value) {
        return Detail(pk);
      }
      if post && formValid {
        var c := nextCommentId;
        comments := comments[c := Commentaire(pk, actor.value, contenu, clock)];
        nextCommentId := nextCommentId + 1;
        clock := clock + 1;
      }
      return Detail(pk);
    }

    /**
     * Deleting a user from the identity store: by the cascades the user's
     * articles go, with every comment on them, and so do the user's own
     * comments.
     */
    method DeleteUser(u: UserName)
      requires Valid()
      modifies this
      ensures Valid()
      ensures AuteursKept(old(articles), articles)
      ensures users == old(users) - {u}
      ensures articles == ArticlesNotBy(old(articles), u)
      ensures comments == CommentsAfterUserDeletion(old(comments), old(articles), u)
      ensures nextArticleId == old(nextArticleId) && nextCommentId == old(nextCommentId) && clock == old(clock)
    {
      DeleteUserCascade(users, articles, comments, u);
      comments := CommentsAfterUserDeletion(comments, articles, u);
      articles := ArticlesNotBy(articles, u);
      users := users - {u};
    }
  }

  // -----------------------------------------------------------------------
  // Read-only views

  /**
   * `accueil_view`: one page of the articles, newest first. The page
   * always exists, holds at most 5 articles, and they come in the feed's
   * order.
   */
  function Accueil(articles: map<ArticleId, Article>, n: nat, token: PageToken): (pg: Page<ArticleId>)
    ensures 1 <= pg.number <= pg.numPages && |pg.items| <= PageSize
    ensures forall i :: 0 <= i < |pg.items| ==> pg.items[i] in articles
    ensures forall i, j :: 0 <= i < j < |pg.items| ==> pg.items[i] > pg.items[j]
    ensures StampsFollowIds(articles) ==>
      forall i, j :: 0 <= i < j < |pg.items| ==> articles[pg.items[i]].dateCreation > articles[pg.items[j]].dateCreation
  {
    var feed := NewestFirst(articles, n, None);
    var pg := Paginate(feed, token);
    WindowInOrder(articles, feed, Bottom(pg.number), pg.items);
    pg
  }

  /** A run of consecutive entries of a newest-first listing is itself newest first. */
  lemma WindowInOrder(articles: map<ArticleId, Article>, feed: seq<ArticleId>, b: nat, w: seq<ArticleId>)
    requires b + |w| <= |feed| && w == feed[b..b + |w|]
    requires forall i :: 0 <= i < |feed| ==> feed[i] in articles
    requires forall i, j :: 0 <= i < j < |feed| ==> feed[i] > feed[j]
    requires StampsFollowIds(articles) ==>
      forall i, j :: 0 <= i < j < |feed| ==> articles[feed[i]].dateCreation > articles[feed[j]].dateCreation
    ensures forall i :: 0 <= i < |w| ==> w[i] in articles
    ensures forall i, j :: 0 <= i < j < |w| ==> w[i] > w[j]
    ensures StampsFollowIds(articles) ==>
      forall i, j :: 0 <= i < j < |w| ==> articles[w[i]].dateCreation > articles[w[j]].dateCreation
  {
  }

  /**
   * Every article shows up on exactly the page the feed's order puts it
   * on: the pages of the home view, one after the other, are the whole
   * newest-first listing — the one and only such listing.
   */
  lemma AccueilPagesAreTheFeed(articles: map<ArticleId, Article>, n: nat)
    requires forall k :: k in articles ==> k < n
    requires StampsFollowIds(articles)
    ensures var feed := NewestFirst(articles, n, None);
      && IsNewestFirst(articles, n, None, feed)
      && (forall k :: k in articles <==> k in feed)
      && FirstPages(feed, NumPages(|feed|)) == feed
      && (forall p :: 1 <= p <= NumPages(|feed|) ==> Accueil(articles, n, Number(p)).items == PageItems(feed, p))
  {
    var feed := NewestFirst(articles, n, None);
    NewestFirstIsTheOrder(articles, n, None, feed);
    PagesCoverAll(feed);
  }

  /**
   * `profil_utilisateur_view`: `NotFound` (None) for an unknown username,
   * otherwise exactly that user's articles, each once, newest first. `n`
   * is the next article id, above every stored id.
   */
  function ProfilUtilisateur(users: set<UserName>, articles: map<ArticleId, Article>, n: nat, username: UserName)
    : (r: Option<seq<ArticleId>>)
    requires forall k :: k in articles ==> k < n
    ensures r.None? <==> username !in users
    ensures r.Some? ==> forall i :: 0 <= i < |r.value| ==> r.value[i] in articles && articles[r.value[i]].auteur == username
    ensures r.Some? ==> forall k :: k in articles && articles[k].auteur == username ==> k in r.value
    ensures r.Some? ==> forall i, j :: 0 <= i < j < |r.value| ==> r.value[i] > r.value[j]
    ensures r.Some? && StampsFollowIds(articles) ==>
      forall i, j :: 0 <= i < j < |r.value| ==> articles[r.value[i]].dateCreation > articles[r.value[j]].dateCreation
  {
    if username in users then Some(NewestFirst(articles, n, Some(username))) else None
  }

  /**
   * `detail_article_view`: `NotFound` (None) for an unknown id, otherwise
   * the article with its comments (the `commentaires` relation), each
   * once, oldest first. `nc` is the next comment id, above every stored id.
   */
  function DetailArticle(articles: map<ArticleId, Article>, comments: map<CommentId, Commentaire>, nc: nat, pk: ArticleId)
    : (r: Option<(Article, seq<CommentId>)>)
    requires forall c :: c in comments ==> c < nc
    ensures r.None? <==> pk !in articles
    ensures r.Some? ==> r.value.0 == articles[pk]
    ensures r.Some? ==> forall i :: 0 <= i < |r.value.1| ==> r.value.1[i] in comments && comments[r.value.1[i]].article == pk
    ensures r.Some? ==> forall c :: c in comments && comments[c].article == pk ==> c in r.value.1
    ensures r.Some? ==> forall i, j :: 0 <= i < j < |r.value.1| ==> r.value.1[i] < r.value.1[j]
    ensures r.Some? && CommentStampsFollowIds(comments) ==>
      forall i, j :: 0 <= i < j < |r.value.1| ==> comments[r.value.1[i]].dateCreation < comments[r.value.1[j]].dateCreation
  {
    match Fetch(articles, pk)
    case None => None
    case Some(a) => Some((a, OldestFirst(comments, nc, pk)))
  }

  /**
   * A session that uses only the handlers' contracts: an article is
   * created and read back, its author's comment is refused and another
   * user's is saved.
   */
  method ScenarioComment()
  {
    var store := new BlogStore();
    var r := store.RegisterUser("alice", true, true);
    r := store.RegisterUser("bob", true, true);
    r := store.CreerArticle(Some("alice"), true, true, "Bonjour", "Premier article");
    assert r == Detail(0);
    assert Fetch(store.articles, 0) == Some(Article("Bonjour", "Premier article", "alice", 0, 0));
    r := store.AjouterCommentaire(Some("alice"), 0, true, true, "Moi-meme");
    assert r == Detail(0) && store.comments == map[];
    r := store.AjouterCommentaire(Some("bob"), 0, true, true, "Bravo");
    assert store.comments == map[0 := Commentaire(0, "bob", "Bravo", 1)];
  }

  /**
   * Deleting an article, again from the contracts alone: a stranger is
   * sent back to it, its author's GET only asks for confirmation, the POST
   * removes it and its comments.
   */
  method ScenarioDelete(store: BlogStore, pk: ArticleId)
    requires store.Valid() && pk in store.articles
    requires store.articles[pk].auteur == "alice" && "bob" in store.users && "alice" in store.users
    modifies store
  {
    var r := store.SupprimerArticle(Some("bob"), pk, true);
    assert r == Detail(pk) && pk in store.articles;
    r := store.SupprimerArticle(Some("alice"), pk, false);
    assert r == ConfirmPage(pk) && pk in store.articles;
    r := store.SupprimerArticle(Some("alice"), pk, true);
    assert r == Home && pk !in store.articles;
    assert forall c :: c in store.comments ==> store.comments[c].article != pk;
  }
}
