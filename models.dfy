/**
 * The records of the blog (blogapp/models.py): articles and comments, the
 * users they refer to, the CASCADE relations between them, and the two
 * `__str__` display strings.
 *
 * A user is identified by its username, which the identity store keeps
 * unique. Creation times (`date_creation`, `date_mise_a_jour`) are stamps
 * taken from a counter that only increases.
 */
module Models {

  datatype Option<T> = None | Some(value: T)

  type UserName = string
  type ArticleId = nat
  type CommentId = nat
  type Stamp = nat

  /** `titre = models.CharField(max_length=200)` */
  const TitreMaxLength: nat := 200

  /** Number of characters of `contenu` a comment's display string keeps. */
  const ExcerptLength: nat := 30

  datatype Article = Article(
    titre: string,
    contenu: string,
    auteur: UserName,
    dateCreation: Stamp,
    dateMiseAJour: Stamp)

  datatype Commentaire = Commentaire(
    article: ArticleId,
    auteur: UserName,
    contenu: string,
    dateCreation: Stamp)

  /** `get_object_or_404`: the record stored under `k`, or nothing. */
  function Fetch<V>(m: map<nat, V>, k: nat): (r: Option<V>)
    ensures r.Some? <==> k in m
    ensures r.Some? ==> r.value == m[k]
  {
    if k in m then Some(m[k]) else None
  }

  // ---------------------------------------------------------------------
  // Display strings

  /** `Article.__str__`: an article is shown by its title. */
  function ArticleStr(a: Article): string
  {
    a.titre
  }

  /** The part of a comment's `contenu` its display string shows. */
  function Excerpt(s: string): (r: string)
    ensures |s| <= ExcerptLength ==> r == s
    ensures |s| > ExcerptLength ==>
      |r| == ExcerptLength + 3 && r[..ExcerptLength] == s[..ExcerptLength] && r[ExcerptLength..] == "..."
  {
    if |s| > ExcerptLength then s[..ExcerptLength] + "..." else s
  }

  /** The text a comment's display string puts before the excerpt, given its article's `titre`. */
  function CommentaireHead(c: Commentaire, titre: string): string
  {
    "Commentaire par " + c.auteur + " sur \"" + titre + "\" : \""
  }

  /**
   * `Commentaire.__str__`: its author's username, the title of the article
   * it is on (looked up through `c.article`) and the (possibly shortened)
   * `contenu` between quotes.
   */
  function CommentaireStr(articles: map<ArticleId, Article>, c: Commentaire): (r: string)
    requires c.article in articles
    ensures var h := |CommentaireHead(c, articles[c.article].titre)|;
      && |r| == h + |Excerpt(c.contenu)| + 1
      && r[..h] == CommentaireHead(c, articles[c.article].titre)
      && r[h..|r| - 1] == Excerpt(c.contenu)
      && r[|r| - 1] == '"'
  {
    CommentaireHead(c, articles[c.article].titre) + Excerpt(c.contenu) + "\""
  }

  /** A `contenu` of at most 30 characters is shown whole, between the head and the closing quote. */
  lemma CommentaireStrShort(articles: map<ArticleId, Article>, c: Commentaire)
    requires c.article in articles
    requires |c.contenu| <= ExcerptLength
    ensures var r := CommentaireStr(articles, c);
      var h := |CommentaireHead(c, articles[c.article].titre)|;
      r[h..|r| - 1] == c.contenu
  {
  }

  /** A longer `contenu` is shown as exactly its first 30 characters followed by "...". */
  lemma CommentaireStrLong(articles: map<ArticleId, Article>, c: Commentaire)
    requires c.article in articles
    requires |c.contenu| > ExcerptLength
    ensures var r := CommentaireStr(articles, c);
      var h := |CommentaireHead(c, articles[c.article].titre)|;
      && |r| == h + ExcerptLength + 4
      && r[h..h + ExcerptLength] == c.contenu[..ExcerptLength]
      && r[h + ExcerptLength..] == "...\""
  {
  }

  // ---------------------------------------------------------------------
  // Integrity of the tables

  /**
   * The relations the schema declares: every article's `auteur` and every
   * comment's `auteur` is a user, every comment's `article` is an article
   * (the foreign keys), and every `titre` keeps to `max_length`. Besides,
   * no comment was written by the author of the article it is on: the only
   * way a comment is made refuses that.
   */
  ghost predicate Consistent(users: set<UserName>, articles: map<ArticleId, Article>, comments: map<CommentId, Commentaire>)
  {
    && (forall k :: k in articles ==> articles[k].auteur in users && |articles[k].titre| <= TitreMaxLength)
    && (forall c :: c in comments ==>
          && comments[c].auteur in users
          && comments[c].article in articles
          && comments[c].auteur != articles[comments[c].article].auteur)
  }

  /** A stored article is displayed as its `titre`, and so in at most 200 characters. */
  lemma StoredArticleStr(users: set<UserName>, articles: map<ArticleId, Article>, comments: map<CommentId, Commentaire>, k: ArticleId)
    requires Consistent(users, articles, comments) && k in articles
    ensures ArticleStr(articles[k]) == articles[k].titre && |ArticleStr(articles[k])| <= TitreMaxLength
  {
  }

  /** Articles created later carry a later `date_creation` (ids and stamps both count up). */
  ghost predicate StampsFollowIds(articles: map<ArticleId, Article>)
  {
    forall i, j :: i in articles && j in articles && i < j ==> articles[i].dateCreation < articles[j].dateCreation
  }

  /** Comments created later carry a later `date_creation`. */
  ghost predicate CommentStampsFollowIds(comments: map<CommentId, Commentaire>)
  {
    forall i, j :: i in comments && j in comments && i < j ==> comments[i].dateCreation < comments[j].dateCreation
  }

  /** No article kept from `before` to `after` has a different `auteur` or `date_creation`. */
  ghost predicate AuteursKept(before: map<ArticleId, Article>, after: map<ArticleId, Article>)
  {
    forall k :: k in before && k in after ==>
      after[k].auteur == before[k].auteur && after[k].dateCreation == before[k].dateCreation
  }

  // ---------------------------------------------------------------------
  // CASCADE

  /** `on_delete=CASCADE` from Commentaire.article: the comments left once the articles `gone` are deleted. */
  function WithoutArticles(comments: map<CommentId, Commentaire>, gone: set<ArticleId>): (r: map<CommentId, Commentaire>)
    ensures forall c :: c in r <==> c in comments && comments[c].article !in gone
    ensures forall c :: c in r ==> r[c] == comments[c]
  {
    map c | c in comments && comments[c].article !in gone :: comments[c]
  }

  /** The ids of the articles `u` wrote. */
  function ArticleIdsBy(articles: map<ArticleId, Article>, u: UserName): (r: set<ArticleId>)
    ensures forall k :: k in r <==> k in articles && articles[k].auteur == u
  {
    set k | k in articles && articles[k].auteur == u
  }

  /** `on_delete=CASCADE` from Article.auteur: the articles left once user `u` is deleted. */
  function ArticlesNotBy(articles: map<ArticleId, Article>, u: UserName): (r: map<ArticleId, Article>)
    ensures forall k :: k in r <==> k in articles && articles[k].auteur != u
    ensures forall k :: k in r ==> r[k] == articles[k]
  {
    map k | k in articles && articles[k].auteur != u :: articles[k]
  }

  /** `on_delete=CASCADE` from Commentaire.auteur: the comments left once user `u` is deleted, before the article cascade. */
  function CommentsNotBy(comments: map<CommentId, Commentaire>, u: UserName): (r: map<CommentId, Commentaire>)
    ensures forall c :: c in r <==> c in comments && comments[c].auteur != u
    ensures forall c :: c in r ==> r[c] == comments[c]
  {
    map c | c in comments && comments[c].auteur != u :: comments[c]
  }

  /** Both cascades a user's deletion sets off on the comment table. */
  function CommentsAfterUserDeletion(comments: map<CommentId, Commentaire>, articles: map<ArticleId, Article>, u: UserName): map<CommentId, Commentaire>
  {
    WithoutArticles(CommentsNotBy(comments, u), ArticleIdsBy(articles, u))
  }

  /**
   * Deleting an article removes exactly the comments on it, keeps every
   * other comment as it was, and leaves the tables consistent.
   */
  lemma DeleteArticleCascade(users: set<UserName>, articles: map<ArticleId, Article>, comments: map<CommentId, Commentaire>, pk: ArticleId)
    requires Consistent(users, articles, comments)
    ensures var after := WithoutArticles(comments, {pk});
      && Consistent(users, articles - {pk}, after)
      && (forall c :: c in comments ==> (c in after <==> comments[c].article != pk))
      && (forall c :: c in after ==> after[c] == comments[c])
  {
  }

  /**
   * Deleting user `u` removes the articles `u` wrote, every comment on
   * them and every comment `u` wrote, and nothing else; what remains is
   * consistent and mentions `u` nowhere.
   */
  lemma DeleteUserCascade(users: set<UserName>, articles: map<ArticleId, Article>, comments: map<CommentId, Commentaire>, u: UserName)
    requires Consistent(users, articles, comments)
    ensures var arts := ArticlesNotBy(articles, u);
      var coms := CommentsAfterUserDeletion(comments, articles, u);
      && Consistent(users - {u}, arts, coms)
      && (forall k :: k in articles ==> (k in arts <==> articles[k].auteur != u))
      && (forall c :: c in comments ==>
            (c in coms <==> comments[c].auteur != u && articles[comments[c].article].auteur != u))
      && (forall c :: c in coms ==> coms[c] == comments[c])
  {
  }

  /** Deleting a user nobody refers to changes no table. */
  lemma DeleteUnknownUser(users: set<UserName>, articles: map<ArticleId, Article>, comments: map<CommentId, Commentaire>, u: UserName)
    requires Consistent(users, articles, comments)
    requires u !in users
    ensures ArticlesNotBy(articles, u) == articles
    ensures CommentsAfterUserDeletion(comments, articles, u) == comments
  {
  }
}
