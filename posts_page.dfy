/** The posts dashboard: the list of posts, the status filter, the
    checkbox selection, single and bulk deletion, and the counts shown
    above the list. The server's answer to a delete is a parameter; a bulk
    delete either succeeds for every id or fails as a whole. */
module PostsPage {

  import opened Common
  import opened Text
  import opened Selection

  /** A post as the page lists it; only the fields the handlers read. */
  datatype Post = Post(id: int, posted: bool)

  datatype StatusFilter = All | Posted | Pending

  predicate Shows(filter: StatusFilter, p: Post) {
    match filter
    case Posted => p.posted
    case Pending => !p.posted
    case All => true
  }

  /** `filteredPosts`: the posts the filter shows, in list order. */
  function Filtered(posts: seq<Post>, filter: StatusFilter): (r: seq<Post>)
    ensures forall p :: p in r <==> p in posts && Shows(filter, p)
    ensures filter == All ==> r == posts
  {
    var r := Filter(posts, p => Shows(filter, p));
    if filter == All then
      FilterAll(posts, p => Shows(filter, p));
      r
    else r
  }

  function Ids(posts: seq<Post>): (ids: seq<int>)
    ensures |ids| == |posts|
    ensures forall i :: 0 <= i < |posts| ==> ids[i] == posts[i].id
  {
    Map(posts, (p: Post) => p.id)
  }

  predicate UniqueIds(posts: seq<Post>) {
    forall i, j :: 0 <= i < j < |posts| ==> posts[i].id != posts[j].id
  }

  datatype Stats = Stats(total: nat, posted: nat, pending: nat)

  function StatsOf(posts: seq<Post>): Stats {
    Stats(|posts|, |Filtered(posts, Posted)|, |Filtered(posts, Pending)|)
  }

  /** Every post is counted once, as posted or as pending. */
  lemma StatsAddUp(posts: seq<Post>)
    ensures StatsOf(posts).posted + StatsOf(posts).pending == StatsOf(posts).total
  {
    FilterComplement(posts, p => Shows(Posted, p), p => Shows(Pending, p));
  }

  /** The first post with this id, as `posts.find` returns it. */
  function Find(posts: seq<Post>, id: int): (r: Option<Post>)
    ensures r.Some? ==> r.value in posts && r.value.id == id
    ensures r.None? ==> forall i :: 0 <= i < |posts| ==> posts[i].id != id
  {
    if posts == [] then None
    else if posts[0].id == id then Some(posts[0])
    else Find(posts[1..], id)
  }

  /** A selected id that names an existing post not yet posted. */
  predicate IsPendingId(posts: seq<Post>, id: int) {
    var p := Find(posts, id);
    p.Some? && !p.value.posted
  }

  /** The ids the "Start Posting" button counts. */
  function PendingSelected(selected: seq<int>, posts: seq<Post>): seq<int> {
    Filter(selected, id => IsPendingId(posts, id))
  }

  /** With distinct ids, an id is counted iff a pending post carries it. */
  lemma {:induction false} PendingIdMeans(posts: seq<Post>, id: int)
    requires UniqueIds(posts)
    ensures IsPendingId(posts, id) <==> exists i :: 0 <= i < |posts| && posts[i].id == id && !posts[i].posted
  {
    if posts != [] && posts[0].id != id {
      assert UniqueIds(posts[1..]) by {
        forall i, j | 0 <= i < j < |posts[1..]| ensures posts[1..][i].id != posts[1..][j].id {
          assert posts[1..][i] == posts[i + 1] && posts[1..][j] == posts[j + 1];
        }
      }
      PendingIdMeans(posts[1..], id);
      if exists i :: 0 <= i < |posts| && posts[i].id == id && !posts[i].posted {
        var i :| 0 <= i < |posts| && posts[i].id == id && !posts[i].posted;
        assert posts[1..][i - 1] == posts[i];
      }
    } else if posts != [] {
      if exists i :: 0 <= i < |posts| && posts[i].id == id && !posts[i].posted {
        var i :| 0 <= i < |posts| && posts[i].id == id && !posts[i].posted;
        assert i == 0;
      }
    }
  }

  /** The button is shown iff its count is positive. */
  lemma StartPostingShown(selected: seq<int>, posts: seq<Post>)
    ensures (exists i :: 0 <= i < |selected| && IsPendingId(posts, selected[i])) <==> |PendingSelected(selected, posts)| > 0
  {
    var r := PendingSelected(selected, posts);
    if exists i :: 0 <= i < |selected| && IsPendingId(posts, selected[i]) {
      var i :| 0 <= i < |selected| && IsPendingId(posts, selected[i]);
      assert selected[i] in r;
    }
    if |r| > 0 {
      assert r[0] in selected;
    }
  }

  /** The list after a successful delete of `id`. */
  function WithoutPost(posts: seq<Post>, id: int): (r: seq<Post>)
    ensures forall p :: p in r <==> p in posts && p.id != id
  {
    Filter(posts, (p: Post) => p.id != id)
  }

  /** With distinct ids, deleting an existing post shortens the list by one. */
  lemma {:induction false} WithoutPostShrinks(posts: seq<Post>, id: int)
    requires UniqueIds(posts)
    requires exists i :: 0 <= i < |posts| && posts[i].id == id
    ensures |WithoutPost(posts, id)| == |posts| - 1
  {
    assert posts != [];
    assert UniqueIds(posts[1..]) by {
      forall i, j | 0 <= i < j < |posts[1..]| ensures posts[1..][i].id != posts[1..][j].id {
        assert posts[1..][i] == posts[i + 1] && posts[1..][j] == posts[j + 1];
      }
    }
    if posts[0].id == id {
      FilterAll(posts[1..], (p: Post) => p.id != id);
    } else {
      var i :| 0 <= i < |posts| && posts[i].id == id;
      assert posts[1..][i - 1] == posts[i];
      WithoutPostShrinks(posts[1..], id);
    }
  }

  /** The list after a successful bulk delete: the unselected posts, in order. */
  function Unselected(posts: seq<Post>, selected: seq<int>): (r: seq<Post>)
    ensures forall p :: p in r <==> p in posts && p.id !in selected
  {
    Filter(posts, (p: Post) => p.id !in selected)
  }

  /** Deleting the first selected id and then the rest leaves what one bulk
      delete leaves. */
  lemma {:induction false} BulkIsRepeatedDelete(posts: seq<Post>, selected: seq<int>)
    requires selected != []
    ensures Unselected(posts, selected) == Unselected(WithoutPost(posts, selected[0]), selected[1..])
  {
    if posts != [] {
      var first, rest := posts[0], posts[1..];
      var id, more := selected[0], selected[1..];
      BulkIsRepeatedDelete(rest, selected);
      var kept := if first.id != id then [first] else [];
      var survivors := WithoutPost(rest, id);
      assert Unselected(posts, selected) ==
        (if first.id !in selected then [first] else []) + Unselected(rest, selected);
      assert WithoutPost(posts, id) == kept + survivors;
      assert Unselected(kept + survivors, more) == Unselected(kept, more) + Unselected(survivors, more) by {
        FilterAppend(kept, survivors, (p: Post) => p.id !in more);
      }
      assert first.id !in selected <==> first.id != id && first.id !in more by {
        assert selected == [id] + more;
      }
    }
  }

  function BulkDeletedMessage(n: nat): string {
    "Successfully deleted " + NatToString(n) + " post(s)"
  }

  /** The page state the handlers change. */
  class Page {
    var posts: seq<Post>
    var selected: seq<int>
    var filter: StatusFilter

    constructor(posts: seq<Post>)
      ensures this.posts == posts && selected == [] && filter == All
    {
      this.posts := posts;
      selected := [];
      filter := All;
    }

    method SetFilter(f: StatusFilter)
      modifies this
      ensures filter == f && posts == old(posts) && selected == old(selected)
    {
      filter := f;
    }

    /** `handleSelectPost`. */
    method SelectPost(id: int)
      modifies this
      ensures selected == Toggle(old(selected), id)
      ensures posts == old(posts) && filter == old(filter)
    {
      if id in selected {
        selected := Without(selected, id);
      } else {
        selected := selected + [id];
      }
    }

    /** `handleSelectAll`, over the posts the filter shows. */
    method SelectAll()
      modifies this
      ensures selected == SelectAllOrNone(old(selected), Ids(Filtered(old(posts), old(filter))))
      ensures posts == old(posts) && filter == old(filter)
    {
      var shown := Filtered(posts, filter);
      if |selected| == |shown| {
        selected := [];
      } else {
        selected := Ids(shown);
      }
    }

    /** `handleDelete`: `confirmed` is the user's answer to the prompt and
        `deleted` whether the server removed the post. */
    method Delete(id: int, confirmed: bool, deleted: bool) returns (notice: Notice)
      modifies this
      ensures !confirmed ==> posts == old(posts) && selected == old(selected) && notice == Quiet
      ensures confirmed && deleted ==>
        posts == WithoutPost(old(posts), id) && selected == Without(old(selected), id) &&
        notice == SuccessNotice("Post deleted successfully")
      ensures confirmed && !deleted ==>
        posts == old(posts) && selected == old(selected) && notice == ErrorNotice("Failed to delete post")
      ensures filter == old(filter)
    {
      if !confirmed {
        return Quiet;
      }
      if deleted {
        posts := WithoutPost(posts, id);
        selected := Without(selected, id);
        notice := SuccessNotice("Post deleted successfully");
      } else {
        notice := ErrorNotice("Failed to delete post");
      }
    }

    /** `handleBulkDelete`: returns the ids a delete request is sent for. */
    method BulkDelete(confirmed: bool, deleted: bool) returns (requests: seq<int>, notice: Notice)
      modifies this
      ensures old(selected) == [] ==>
        requests == [] && notice == ErrorNotice("Please select posts to delete") &&
        posts == old(posts) && selected == old(selected)
      ensures old(selected) != [] && !confirmed ==>
        requests == [] && notice == Quiet && posts == old(posts) && selected == old(selected)
      ensures old(selected) != [] && confirmed ==> requests == old(selected)
      ensures old(selected) != [] && confirmed && deleted ==>
        posts == Unselected(old(posts), old(selected)) && selected == [] &&
        notice == SuccessNotice(BulkDeletedMessage(|old(selected)|))
      ensures old(selected) != [] && confirmed && !deleted ==>
        posts == old(posts) && selected == old(selected) && notice == ErrorNotice("Failed to delete some posts")
      ensures filter == old(filter)
    {
      if selected == [] {
        return [], ErrorNotice("Please select posts to delete");
      }
      if !confirmed {
        return [], Quiet;
      }
      requests := selected;
      if deleted {
        posts := Unselected(posts, selected);
        notice := SuccessNotice(BulkDeletedMessage(|selected|));
        selected := [];
      } else {
        notice := ErrorNotice("Failed to delete some posts");
      }
    }
  }
}
