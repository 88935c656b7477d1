# Blog store model (blogapp)

A Dafny model of the rules of a small Django blog: users write articles
(`Article`: `titre`, `contenu`, `auteur`, `date_creation`,
`date_mise_a_jour`), other users comment on them (`Commentaire`: `article`,
`auteur`, `contenu`, `date_creation`), and a home feed shows the articles
newest first, five per page.

- `models.dfy` (module `Models`): the two records, `get_object_or_404` as
  `Fetch`, the two `__str__` display strings, the integrity of the tables
  (foreign keys, `max_length=200` on `titre`, no comment by the article's
  own author) and the three `on_delete=CASCADE` relations as functions, with
  lemmas saying what a deletion removes and that it keeps the tables
  consistent.
- `ordering.dfy` (module `Ordering`): the listing orders. Ids and stamps
  come from counters that only go up, so the feed and a profile walk the
  article ids downwards and an article's comments walk the comment ids
  upwards; the contracts carry that order over to `date_creation`, and a
  lemma shows the newest-first listing is the only listing with that order.
- `pagination.dfy` (module `Pagination`): Django's `Paginator` with 5 items a
  page as the home view uses it, and the view's policy for the `page`
  parameter: not an integer (or missing) gives page 1, an integer out of
  range gives the last page, and there is always at least one page.
- `views.dfy` (module `Views`): the store as a class `BlogStore` whose
  methods are the handlers that write (`creer_article_view`,
  `modifier_article_view`, `supprimer_article_view`,
  `ajouter_commentaire_view`, plus the identity store's insert and delete of
  a user), each stating its whole new state in every branch; the read-only
  views (`accueil_view`, `profil_utilisateur_view`, `detail_article_view`)
  as functions of the tables; the profile and the detail view also take
  the next id of their table, which the store's invariant puts above every
  stored id. Two client methods, `ScenarioComment` and
  `ScenarioDelete`, replay a session using nothing but the handlers'
  contracts.

A request is reduced to the logged-in user (`None` for an anonymous visitor,
whom `@login_required` turns away with `LoginRedirect`), whether it is a
POST, the form's verdict as a boolean and the submitted fields. A handler's
answer is a `Response`: `Detail(pk)`, `Home`, `Form`, `ConfirmPage(pk)`,
`NotFound` or `LoginRedirect`. Timestamps are the values of a clock that
every save ticks. A user is identified by its username, which the identity
store keeps unique.

The home view's policy for the `page` parameter is read from the code: an
integer below 1 is refused by Django's `Paginator` with `EmptyPage`, just
as one above the number of pages, so `?page=0` and `?page=-3` show the last
page (not the first).

## Model

| member | source | states |
|---|---|---|
| `Models.Fetch` | blogapp/views.py:92 | `get_object_or_404`: a record comes back exactly when the id is in the table, and it is the stored one; otherwise the handler answers NotFound |
| `Models.StoredArticleStr` | blogapp/models.py:5-16 | a stored article is displayed as its `titre`, so in at most 200 characters (`max_length=200`) |
| `Models.Excerpt` | blogapp/models.py:33-35 | a `contenu` of at most 30 characters is shown whole; a longer one as its first 30 characters followed by "..." (33 characters) |
| `Models.CommentaireStr` | blogapp/models.py:32-35 | the display string is the head "Commentaire par <auteur> sur "<titre>" : "", with the `titre` of the comment's own article, then exactly the excerpt of `contenu`, then the closing quote |
| `Models.CommentaireStrShort` | blogapp/models.py:35 | when `contenu` has at most 30 characters the display string holds it in full between the head and the closing quote |
| `Models.CommentaireStrLong` | blogapp/models.py:33-34 | when `contenu` is longer than 30 characters the display string holds exactly its first 30 characters, then `..."` |
| `Models.WithoutArticles` | blogapp/models.py:19-23 | CASCADE from `Commentaire.article`: a comment survives the deletion of a set of articles exactly when it is on none of them, and unchanged |
| `Models.ArticleIdsBy` | blogapp/models.py:7-11 | the ids of exactly the articles whose `auteur` is the user |
| `Models.ArticlesNotBy` | blogapp/models.py:7-11 | CASCADE from `Article.auteur`: an article survives a user's deletion exactly when someone else wrote it, and unchanged |
| `Models.CommentsNotBy` | blogapp/models.py:24-28 | CASCADE from `Commentaire.auteur`: a comment survives a user's deletion exactly when someone else wrote it, and unchanged |
| `Models.DeleteArticleCascade` | blogapp/models.py:19-23 | deleting an article removes exactly the comments whose `article` is it, keeps all others unchanged, and leaves the tables consistent |
| `Models.DeleteUserCascade` | blogapp/models.py:7-28 | deleting a user removes exactly that user's articles, every comment on them and every comment that user wrote; the rest is unchanged and consistent |
| `Models.DeleteUnknownUser` | blogapp/models.py:7-11 | deleting a user no row refers to leaves both tables as they were |
| `Ordering.NewestFirst` | blogapp/views.py:12 | `order_by('-date_creation')`: every shown article exactly once, ids strictly decreasing and so `date_creation` strictly decreasing |
| `Ordering.NewestFirstIsTheOrder` | blogapp/views.py:12 | the feed lists exactly the articles by strictly decreasing `date_creation`, and any listing that does so is the feed |
| `Ordering.OldestFirst` | blogapp/models.py:37-38 | `ordering = ['date_creation']`: exactly the comments of one article, each once, by strictly increasing `date_creation` |
| `Ordering.Filter` | blogapp/views.py:151 | `filter(auteur=...)` on a listing: exactly the listed articles of that author |
| `Ordering.ProfileIsFilteredFeed` | blogapp/views.py:151 | a profile is the feed with only that author's articles kept, in the feed's order |
| `Pagination.NumPages` | blogapp/views.py:15 | the number of pages is the least number of 5-item pages that hold all items, and 1 when there are none |
| `Pagination.SelectPage` | blogapp/views.py:18-25 | page 1 for a non-integer, the asked page when it is between 1 and the page count, the last page for any other integer; always a valid page |
| `Pagination.PageItems` | blogapp/views.py:19 | page p holds at most 5 consecutive items starting at item 5(p-1); exactly 5 before the last page; the last page runs to the end; no page of a non-empty list is empty |
| `Pagination.Paginate` | blogapp/views.py:15-25 | the page shown always exists, whatever the token and however many items, and carries its number and the page count |
| `Pagination.NotAnIntegerIsFirstPage` | blogapp/views.py:20-22 | a non-integer or missing token shows the same page as page 1, which has no previous page |
| `Pagination.OutOfRangeIsLastPage` | blogapp/views.py:23-25 | an integer out of range shows the same page as the last page, which has no next page |
| `Pagination.FirstPagesArePrefix` | blogapp/views.py:15 | the first k pages, read in turn, are the first 5k items |
| `Pagination.PagesCoverAll` | blogapp/views.py:15 | all pages read in turn give back the whole list: each item on exactly one page, in order |
| `Pagination.TwelveItems` | blogapp/views.py:15-25 | with 12 items: 3 pages, page 1 is items 1-5, page 3 is items 11-12, a non-integer gives page 1, 99 gives page 3 |
| `Views.BlogStore.RegisterUser` | blogapp/views.py:34-42 | a valid POST with a free username adds that user and goes home; anything else shows the form and changes nothing |
| `Views.BlogStore.CreerArticle` | blogapp/views.py:65-76 | a valid POST adds one article under a fresh id with `auteur` the current user, both stamps the clock, and redirects to it; other articles, comments and users untouched; otherwise the form and no change |
| `Views.BlogStore.ModifierArticle` | blogapp/views.py:90-110 | unknown id: NotFound; non-author: redirect to the article, nothing changes; author's valid POST: new `titre`, `contenu` and update stamp, `auteur` and `date_creation` kept; otherwise the form and no change |
| `Views.BlogStore.SupprimerArticle` | blogapp/views.py:113-127 | unknown id: NotFound; non-author: redirect to the article, nothing changes; author's GET: confirmation page, nothing changes; author's POST: that article and exactly its comments removed, home |
| `Views.BlogStore.AjouterCommentaire` | blogapp/views.py:129-146 | unknown id: NotFound; otherwise always a redirect to the article; the article's author, a non-POST or an invalid form add nothing; a valid POST by anyone else adds exactly one comment with that `article` and `auteur` the current user |
| `Views.BlogStore.DeleteUser` | blogapp/models.py:7-28 | deleting a user removes that user, the user's articles with their comments, and the user's comments, keeping the store valid |
| `Views.Accueil` | blogapp/views.py:11-30 | the home page always exists, holds at most 5 articles, and they come newest first |
| `Views.AccueilPagesAreTheFeed` | blogapp/views.py:11-25 | the feed holds every article once, newest first; the home pages read in turn are that feed, page p being its p-th slice of 5 |
| `Views.ProfilUtilisateur` | blogapp/views.py:149-157 | NotFound exactly for an unknown username; otherwise every article of that user and no other, each once, newest first |
| `Views.DetailArticle` | blogapp/views.py:79-87 | NotFound exactly for an unknown id; otherwise that article and every comment on it and no other, each once, oldest first |

Every method of `BlogStore` also keeps the store invariant `Valid()`:
consistent tables, keys below their sequences, stamps below the clock,
later rows with later stamps, every `titre` within 200 characters, no
comment by its article's author. Every method that touches articles keeps
`auteur` and `date_creation` of every article that stays (`AuteursKept`):
no operation reassigns an article's author.

## Left out

- Rendering, templates, redirects and HTTP: a handler answers with a `Response` value.
- Sessions: `connexion_view`, `deconnexion_view` and the login part of `inscription_view` (Django's auth does all of it); the logged-in user is an input, and a logged-in user is assumed to exist in the identity store (`SessionUser`).
- Passwords and the checks of `UserCreationForm`: `RegisterUser` only adds the username when the form's verdict is positive and the name is free.
- Django's numeric user id: users are identified by their unique username.
- Form internals: `ArticleForm` and `CommentaireForm` are defined in a forms.py that is not part of this model; their verdict is a boolean input. `ArticleForm` is taken to edit exactly `titre` and `contenu`, and its verdict is conjoined with the `max_length=200` of `titre`.
- Parsing the raw `page` string: the token arrives already classified as not an integer or as an integer.
- Real time: `auto_now_add` and `auto_now` read a counter that every save ticks; `date_mise_a_jour` is only "set on each save".
- The ORM, SQL and transactions, and concurrency between requests.
