/**
 * The orders the blog lists its records in: articles by `-date_creation`
 * (the home feed, blogapp/views.py:12, and a user's profile,
 * blogapp/views.py:151), comments by `date_creation` (the default ordering
 * of Commentaire, blogapp/models.py:37-38).
 *
 * Ids and stamps are handed out by counters that only go up, so ordering by
 * id is ordering by stamp; the listings walk the ids below the next free id
 * `n` and the lemmas below carry the order over to the stamps.
 */
module Ordering {
  import opened Models

  /** Whether `a` belongs in the listing: every article, or only those of one `auteur`. */
  predicate Shown(a: Article, author: Option<UserName>)
  {
    author.None? || a.auteur == author.value
  }

  /**
   * The articles with id below `n` that are shown, newest first. Its
   * contract: exactly those articles, each once, in descending id order,
   * hence (when stamps follow ids) in descending `date_creation` order.
   */
  function NewestFirst(articles: map<ArticleId, Article>, n: nat, author: Option<UserName>): (r: seq<ArticleId>)
    ensures forall i :: 0 <= i < |r| ==> r[i] < n && r[i] in articles && Shown(articles[r[i]], author)
    ensures forall k :: k < n && k in articles && Shown(articles[k], author) ==> k in r
    ensures forall i, j :: 0 <= i < j < |r| ==> r[i] > r[j]
    ensures StampsFollowIds(articles) ==>
      forall i, j :: 0 <= i < j < |r| ==> articles[r[i]].dateCreation > articles[r[j]].dateCreation
    decreases n
  {
    if n == 0 then []
    else if n - 1 in articles && Shown(articles[n - 1], author) then [n - 1] + NewestFirst(articles, n - 1, author)
    else NewestFirst(articles, n - 1, author)
  }

  /**
   * The comments with id below `n` on article `pk`, oldest first: exactly
   * those comments, each once, in ascending id order, hence (when stamps
   * follow ids) in ascending `date_creation` order.
   */
  function OldestFirst(comments: map<CommentId, Commentaire>, n: nat, pk: ArticleId): (r: seq<CommentId>)
    ensures forall i :: 0 <= i < |r| ==> r[i] < n && r[i] in comments && comments[r[i]].article == pk
    ensures forall c :: c < n && c in comments && comments[c].article == pk ==> c in r
    ensures forall i, j :: 0 <= i < j < |r| ==> r[i] < r[j]
    ensures CommentStampsFollowIds(comments) ==>
      forall i, j :: 0 <= i < j < |r| ==> comments[r[i]].dateCreation < comments[r[j]].dateCreation
    decreases n
  {
    if n == 0 then []
    else if n - 1 in comments && comments[n - 1].article == pk then OldestFirst(comments, n - 1, pk) + [n - 1]
    else OldestFirst(comments, n - 1, pk)
  }

  /** `s` lists exactly the shown articles with id below `n`, each once, by strictly decreasing `date_creation`. */
  ghost predicate IsNewestFirst(articles: map<ArticleId, Article>, n: nat, author: Option<UserName>, s: seq<ArticleId>)
  {
    && (forall i :: 0 <= i < |s| ==> s[i] < n && s[i] in articles && Shown(articles[s[i]], author))
    && (forall k :: k < n && k in articles && Shown(articles[k], author) ==> k in s)
    && (forall i, j :: 0 <= i < j < |s| ==> articles[s[i]].dateCreation > articles[s[j]].dateCreation)
  }

  /** Two strictly decreasing sequences with the same elements are the same sequence. */
  lemma {:induction false} StrictlyDecreasingUnique(s: seq<nat>, t: seq<nat>)
    requires forall i, j :: 0 <= i < j < |s| ==> s[i] > s[j]
    requires forall i, j :: 0 <= i < j < |t| ==> t[i] > t[j]
    requires forall x :: x in s <==> x in t
    ensures s == t
  {
    if s == [] {
      if t != [] {
        HeadIsElement(t);
        assert false;
      }
    } else {
      assert s[0] in t;
      assert t != [];
      assert t[0] in s;
      var a :| 0 <= a < |s| && s[a] == t[0];
      var b :| 0 <= b < |t| && t[b] == s[0];
      assert s[0] == t[0];
      forall x
        ensures x in s[1..] <==> x in t[1..]
      {
        if x in s[1..] {
          var i :| 1 <= i < |s| && s[i] == x;
          assert s[0] > s[i];
          assert x in t;
        }
        if x in t[1..] {
          var i :| 1 <= i < |t| && t[i] == x;
          assert t[0] > t[i];
          assert x in s;
        }
      }
      StrictlyDecreasingUnique(s[1..], t[1..]);
      assert s == [s[0]] + s[1..] && t == [t[0]] + t[1..];
    }
  }

  /** The head of a non-empty sequence is one of its elements. */
  lemma HeadIsElement(t: seq<nat>)
    requires t != []
    ensures t[0] in t
  {
  }

  /**
   * `NewestFirst` is THE newest-first listing: it has the order, and any
   * listing with that order is equal to it.
   */
  lemma NewestFirstIsTheOrder(articles: map<ArticleId, Article>, n: nat, author: Option<UserName>, s: seq<ArticleId>)
    requires StampsFollowIds(articles)
    ensures IsNewestFirst(articles, n, author, NewestFirst(articles, n, author))
    ensures IsNewestFirst(articles, n, author, s) ==> s == NewestFirst(articles, n, author)
  {
    var r := NewestFirst(articles, n, author);
    if IsNewestFirst(articles, n, author, s) {
      forall i, j | 0 <= i < j < |s|
        ensures s[i] > s[j]
      {
      }
      forall x
        ensures x in s <==> x in r
      {
        if x in s {
          var i :| 0 <= i < |s| && s[i] == x;
        }
        if x in r {
          var i :| 0 <= i < |r| && r[i] == x;
        }
      }
      StrictlyDecreasingUnique(s, r);
    }
  }

  /**
   * A profile lists the same articles, in the same order, as the whole feed
   * does when it keeps only those by that author (filtering then ordering
   * is ordering then filtering).
   */
  lemma {:induction false} ProfileIsFilteredFeed(articles: map<ArticleId, Article>, n: nat, u: UserName)
    ensures NewestFirst(articles, n, Some(u)) == Filter(articles, NewestFirst(articles, n, None), u)
    decreases n
  {
    if n > 0 {
      ProfileIsFilteredFeed(articles, n - 1, u);
      ProfileStep(articles, n, u);
    }
  }

  /** One more id below the bound: the feed and the profile grow (or not) together. */
  lemma ProfileStep(articles: map<ArticleId, Article>, n: nat, u: UserName)
    requires n > 0
    requires NewestFirst(articles, n - 1, Some(u)) == Filter(articles, NewestFirst(articles, n - 1, None), u)
    ensures NewestFirst(articles, n, Some(u)) == Filter(articles, NewestFirst(articles, n, None), u)
  {
  }

  /** The articles of `ids` written by `u`, in the order of `ids`. */
  function Filter(articles: map<ArticleId, Article>, ids: seq<ArticleId>, u: UserName): (r: seq<ArticleId>)
    ensures forall i :: 0 <= i < |r| ==> r[i] in ids && r[i] in articles && articles[r[i]].auteur == u
    ensures forall k :: k in ids && k in articles && articles[k].auteur == u ==> k in r
  {
    if ids == [] then []
    else if ids[0] in articles && articles[ids[0]].auteur == u then [ids[0]] + Filter(articles, ids[1..], u)
    else Filter(articles, ids[1..], u)
  }
}
