/** The feed route: the posts a viewer may see, newest first. */
module Feed {
  import opened Results
  import opened Lists
  import opened Schema
  import opened Visibility

  /** Creation times never increase along the sequence. */
  predicate NewestFirst(f: seq<Post>) {
    forall i, j :: 0 <= i < j < |f| ==> f[i].createdAt >= f[j].createdAt
  }

  /** `f` is a feed of `viewer` over `s`: each stored post the policy lets the
      viewer see appears exactly once, nothing else appears, and the posts
      come newest first. Posts created at the same instant may come in any
      order, as the store's sort has no second key. */
  ghost predicate IsFeedOf(s: Store, viewer: Option<UserId>, f: seq<Post>) {
    && (forall i | 0 <= i < |f| :: f[i].id in s.posts && s.posts[f[i].id] == f[i] && CanView(s.users, viewer, f[i]))
    && (forall k | k in s.posts && CanView(s.users, viewer, s.posts[k]) :: s.posts[k] in f)
    && NoDup(f)
    && NewestFirst(f)
  }

  /** A post no older than every post of a newest-first sequence can lead it. */
  lemma NewestFirstCons(x: Post, t: seq<Post>)
    requires NewestFirst(t)
    requires forall y | y in t :: y.createdAt <= x.createdAt
    ensures NewestFirst([x] + t)
  {
    var r := [x] + t;
    forall i, j | 0 <= i < j < |r| ensures r[i].createdAt >= r[j].createdAt {
      if i == 0 {
        assert r[j] == t[j - 1];
      } else {
        assert r[i] == t[i - 1] && r[j] == t[j - 1];
      }
    }
  }

  /** Places `p` into a newest-first sequence, ahead of every post not newer
      than it; the result is a newest-first permutation of `f` plus `p`. */
  function InsertNewestFirst(f: seq<Post>, p: Post): (r: seq<Post>)
    requires NewestFirst(f)
    ensures NewestFirst(r)
    ensures multiset(r) == multiset(f) + multiset{p}
  {
    if |f| == 0 || f[0].createdAt <= p.createdAt then
      NewestFirstCons(p, f);
      [p] + f
    else
      var t := InsertNewestFirst(f[1..], p);
      assert f == [f[0]] + f[1..];
      forall y | y in t ensures y.createdAt <= f[0].createdAt {
        assert y in multiset(t);
      }
      NewestFirstCons(f[0], t);
      [f[0]] + t
  }

  /** The members after an insertion are those of `f` plus `p`. */
  lemma InsertNewestFirstMembers(f: seq<Post>, p: Post)
    requires NewestFirst(f)
    ensures forall x :: x in InsertNewestFirst(f, p) <==> x in f || x == p
  {
    var r := InsertNewestFirst(f, p);
    forall x ensures x in r <==> x in f || x == p {
      assert x in r <==> x in multiset(r);
      assert x in f <==> x in multiset(f);
    }
  }

  /** Inserting a post that is not yet listed into a duplicate-free sequence
      keeps it duplicate-free. */
  lemma {:induction false} InsertNewestFirstNoDup(f: seq<Post>, p: Post)
    requires NewestFirst(f)
    requires NoDup(f) && p !in f
    ensures NoDup(InsertNewestFirst(f, p))
  {
    if |f| == 0 || f[0].createdAt <= p.createdAt {
      ConsNoDup(p, f);
    } else {
      var tail := f[1..];
      assert f == [f[0]] + tail;
      assert NoDup(tail) by {
        forall i, j | 0 <= i < j < |tail| ensures tail[i] != tail[j] {
          assert tail[i] == f[i + 1] && tail[j] == f[j + 1];
        }
      }
      assert f[0] !in tail;
      InsertNewestFirstNoDup(tail, p);
      InsertNewestFirstMembers(tail, p);
      ConsNoDup(f[0], InsertNewestFirst(tail, p));
    }
  }

  /** The selection the route makes for one post: the anonymous query, or the
      signed-in query over the viewer's friend list. */
  predicate Selected(s: Store, viewer: Option<UserId>, p: Post)
    requires viewer.Some? ==> viewer.value in s.users
  {
    if viewer.None? then MatchesPublicQuery(p)
    else MatchesViewerQuery(viewer.value, s.users[viewer.value].friends, p)
  }

  /** GET /api/posts. An unknown viewer id is answered with an error; otherwise
      the result is the viewer's feed (the public posts when no viewer is
      given). */
  method GetFeed(s: Store, viewer: Option<UserId>) returns (r: Result<seq<Post>>)
    requires WellKeyed(s.posts)
    ensures r.Err? <==> viewer.Some? && viewer.value !in s.users
    ensures r.Err? ==> r.error == UnknownViewer
    ensures r.Ok? ==> IsFeedOf(s, viewer, r.value)
  {
    if viewer.Some? && viewer.value !in s.users {
      return Err(UnknownViewer);
    }
    var remaining := s.posts.Keys;
    var feed: seq<Post> := [];
    while remaining != {}
      invariant remaining <= s.posts.Keys
      invariant forall i | 0 <= i < |feed| ::
                  feed[i].id in s.posts && feed[i].id !in remaining
                  && s.posts[feed[i].id] == feed[i] && CanView(s.users, viewer, feed[i])
      invariant forall k | k in s.posts && k !in remaining && CanView(s.users, viewer, s.posts[k]) ::
                  s.posts[k] in feed
      invariant NoDup(feed)
      invariant NewestFirst(feed)
      decreases remaining
    {
      var k :| k in remaining;
      var p := s.posts[k];
      assert p.id == k;
      if viewer.Some? {
        ViewerQueryIsPolicy(s.users, viewer.value, p);
      } else {
        PublicQueryIsPolicy(s.users, p);
      }
      if Selected(s, viewer, p) {
        var before := feed;
        InsertNewestFirstMembers(feed, p);
        InsertNewestFirstNoDup(feed, p);
        feed := InsertNewestFirst(feed, p);
        forall i | 0 <= i < |feed| ensures feed[i] in before || feed[i] == p {
          assert feed[i] in feed;
        }
      }
      remaining := remaining - {k};
    }
    return Ok(feed);
  }
}
