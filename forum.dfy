/** The list logic of the community forum page (ui.py): posts with their
    replies, the search and tag filters, the two sort orders, the parsing of
    the comma-separated tag field and the canned support-chat replies. */
module Forum {
  import opened Text
  import opened Seqs

  /** A reply under a post. Timestamps are abstract instants: a larger number
      is a later time. */
  datatype Reply = Reply(author: string, timestamp: int, content: string)

  datatype Post = Post(id: int, author: string, timestamp: int, content: string,
                       tags: seq<string>, replies: seq<Reply>)

  datatype Role = User | Assistant

  datatype Message = Message(role: Role, content: string)

  /** The two choices of the "Sort by" box. */
  datatype SortBy = Recent | MostReplies

  /** The tag universe offered by the tag filter: every tag of every post. */
  method CollectTags(posts: seq<Post>) returns (allTags: set<string>)
    ensures forall t :: t in allTags <==> exists k :: 0 <= k < |posts| && t in posts[k].tags
  {
    allTags := {};
    var i := 0;
    while i < |posts|
      invariant 0 <= i <= |posts|
      invariant forall t :: t in allTags <==> exists k :: 0 <= k < i && t in posts[k].tags
    {
      allTags := allTags + set t | t in posts[i].tags;
      i := i + 1;
    }
  }

  /** The search box: the posts whose lower-cased content contains the
      lower-cased term; an empty term filters nothing. */
  function SearchFilter(posts: seq<Post>, term: string): seq<Post>
  {
    if term == [] then posts
    else Filter(posts, (p: Post) => Contains(Lower(term), Lower(p.content)))
  }

  /** The search keeps exactly the posts whose lower-cased content has the
      lower-cased term as a substring, each as often as before, in their
      original order. With the empty term that is every post. */
  lemma SearchFilterKeepsMatches(posts: seq<Post>, term: string, p: Post)
    ensures multiset(SearchFilter(posts, term))[p]
         == if IsInfix(Lower(term), Lower(p.content)) then multiset(posts)[p] else 0
    ensures IsSubsequence(SearchFilter(posts, term), posts)
    ensures term == [] ==> SearchFilter(posts, term) == posts
  {
    var matches := (q: Post) => Contains(Lower(term), Lower(q.content));
    ContainsIsInfix(Lower(term), Lower(p.content));
    if term == [] {
      EmptyIsInfix(Lower(p.content));
      assert SearchFilter(posts, term) == posts;
      assert IsSubsequence(posts, posts) by {
        FilterKeepsAll(posts, (q: Post) => true);
        FilterIsSubsequence(posts, (q: Post) => true);
      }
    } else {
      FilterCount(posts, matches, p);
      FilterIsSubsequence(posts, matches);
    }
  }

  /** `any(tag in p['tags'] for tag in selected)` */
  predicate SharesTag(p: Post, selected: seq<string>)
  {
    exists t :: t in selected && t in p.tags
  }

  /** The tag filter: the posts carrying at least one selected tag; an empty
      selection filters nothing. */
  function TagFilter(posts: seq<Post>, selected: seq<string>): seq<Post>
  {
    if selected == [] then posts
    else Filter(posts, (p: Post) => SharesTag(p, selected))
  }

  /** The tag filter keeps exactly the posts that share a tag with a non-empty
      selection, each as often as before, in their original order. */
  lemma TagFilterKeepsTagged(posts: seq<Post>, selected: seq<string>, p: Post)
    ensures multiset(TagFilter(posts, selected))[p]
         == if selected == [] || SharesTag(p, selected) then multiset(posts)[p] else 0
    ensures IsSubsequence(TagFilter(posts, selected), posts)
  {
    if selected == [] {
      FilterKeepsAll(posts, (q: Post) => true);
      FilterIsSubsequence(posts, (q: Post) => true);
    } else {
      FilterCount(posts, (q: Post) => SharesTag(q, selected), p);
      FilterIsSubsequence(posts, (q: Post) => SharesTag(q, selected));
    }
  }

  /** The sort key: the timestamp for "Recent", the number of replies for
      "Most Replies". */
  function Key(p: Post, order: SortBy): int
  {
    match order
    case Recent => p.timestamp
    case MostReplies => |p.replies|
  }

  /** Keys never increase from one position to a later one. */
  predicate SortedDesc(s: seq<Post>, order: SortBy)
  {
    forall i, j :: 0 <= i < j < |s| ==> Key(s[i], order) >= Key(s[j], order)
  }

  /** Places x in front of the first post whose key is not larger than its own. */
  function Insert(x: Post, s: seq<Post>, order: SortBy): (r: seq<Post>)
    ensures multiset(r) == multiset(s) + multiset{x}
  {
    if s == [] || Key(x, order) >= Key(s[0], order) then [x] + s
    else
      assert s == [s[0]] + s[1..];
      [s[0]] + Insert(x, s[1..], order)
  }

  /** `sort(key=…, reverse=True)`: Python's sort is stable also when reversed,
      so posts with equal keys keep their relative order. */
  function SortDesc(s: seq<Post>, order: SortBy): (r: seq<Post>)
    ensures |r| == |s|
  {
    if s == [] then []
    else
      var r := Insert(s[0], SortDesc(s[1..], order), order);
      assert |r| == |multiset(r)|;
      r
  }

  /** What Insert returns is x and the posts of s. */
  lemma InsertMembers(x: Post, s: seq<Post>, order: SortBy)
    ensures forall y :: y in Insert(x, s, order) ==> y == x || y in s
  {
    forall y | y in Insert(x, s, order)
      ensures y == x || y in s
    {
      assert y in multiset(Insert(x, s, order));
    }
  }

  /** When x goes after the head of a sorted list, nothing placed behind the
      head has a larger key than the head. */
  lemma InsertBehindHead(x: Post, s: seq<Post>, order: SortBy)
    requires s != [] && SortedDesc(s, order) && Key(x, order) < Key(s[0], order)
    ensures forall y :: y in Insert(x, s[1..], order) ==> Key(y, order) <= Key(s[0], order)
  {
    InsertMembers(x, s[1..], order);
    forall y | y in Insert(x, s[1..], order)
      ensures Key(y, order) <= Key(s[0], order)
    {
      if y != x {
        var j :| 0 <= j < |s[1..]| && s[1..][j] == y;
        assert s[j + 1] == y;
      }
    }
  }

  lemma {:induction false} InsertSorted(x: Post, s: seq<Post>, order: SortBy)
    requires SortedDesc(s, order)
    ensures SortedDesc(Insert(x, s, order), order)
    decreases |s|
  {
    if s != [] && Key(x, order) < Key(s[0], order) {
      var rest := Insert(x, s[1..], order);
      InsertSorted(x, s[1..], order);
      InsertBehindHead(x, s, order);
      var r := [s[0]] + rest;
      assert Insert(x, s, order) == r;
      forall i, j | 0 <= i < j < |r|
        ensures Key(r[i], order) >= Key(r[j], order)
      {
        assert r[j] == rest[j - 1];
        if i == 0 {
          assert rest[j - 1] in rest;
        } else {
          assert r[i] == rest[i - 1];
        }
      }
    }
  }

  /** The sorted posts are in descending key order and are the same posts,
      each as often as before. */
  lemma {:induction false} SortDescSortsPermutation(s: seq<Post>, order: SortBy)
    ensures SortedDesc(SortDesc(s, order), order)
    ensures multiset(SortDesc(s, order)) == multiset(s)
    decreases |s|
  {
    if s != [] {
      var rest := SortDesc(s[1..], order);
      SortDescSortsPermutation(s[1..], order);
      InsertSorted(s[0], rest, order);
      assert SortDesc(s, order) == Insert(s[0], rest, order);
      assert multiset(s) == multiset(s[1..]) + multiset{s[0]} by {
        assert s == [s[0]] + s[1..];
      }
    }
  }

  /** The posts whose key is k. */
  function WithKey(order: SortBy, k: int): Post -> bool
  {
    (p: Post) => Key(p, order) == k
  }

  lemma {:induction false} InsertWithKey(x: Post, s: seq<Post>, order: SortBy, k: int)
    ensures Filter(Insert(x, s, order), WithKey(order, k))
         == (if Key(x, order) == k then [x] else []) + Filter(s, WithKey(order, k))
    decreases |s|
  {
    var eq := WithKey(order, k);
    if s == [] || Key(x, order) >= Key(s[0], order) {
      assert ([x] + s)[1..] == s;
    } else {
      InsertWithKey(x, s[1..], order, k);
      var r := [s[0]] + Insert(x, s[1..], order);
      assert r[1..] == Insert(x, s[1..], order);
      assert Filter(s, eq) == (if eq(s[0]) then [s[0]] else []) + Filter(s[1..], eq);
    }
  }

  /** The sort is stable: the posts sharing any one key appear in the sorted
      list in the order they had before. */
  lemma {:induction false} SortDescStable(s: seq<Post>, order: SortBy, k: int)
    ensures Filter(SortDesc(s, order), WithKey(order, k)) == Filter(s, WithKey(order, k))
    decreases |s|
  {
    if s != [] {
      SortDescStable(s[1..], order, k);
      InsertWithKey(s[0], SortDesc(s[1..], order), order, k);
    }
  }

  /** Each piece of the tag field without its surrounding whitespace. */
  function StripAll(pieces: seq<string>): seq<string>
  {
    seq(|pieces|, k requires 0 <= k < |pieces| => Strip(pieces[k]))
  }

  predicate NonEmpty(t: string)
  {
    t != []
  }

  /** The tag field of a new post: split at commas, each piece stripped, and
      the pieces left empty dropped. */
  function ParseTags(input: string): seq<string>
  {
    Filter(StripAll(Split(input, ',')), NonEmpty)
  }

  /** A parsed tag is never empty, has no surrounding whitespace and holds no comma. */
  lemma ParseTagsClean(input: string)
    ensures forall t :: t in ParseTags(input) ==> t != [] && IsStripped(t) && ',' !in t
  {
    var pieces := Split(input, ',');
    FilterKeepsOnly(StripAll(pieces), NonEmpty);
    forall t | t in ParseTags(input)
      ensures ',' !in t
    {
      var k :| 0 <= k < |pieces| && StripAll(pieces)[k] == t;
      var pre, post := StripRemovesOnlySpaces(pieces[k]);
      assert forall c :: c in t ==> c in pieces[k];
    }
  }

  /** Parsing the comma-joined pieces strips each piece and drops the blank ones. */
  lemma ParseTagsOfJoin(pieces: seq<string>)
    requires |pieces| >= 1
    requires forall k :: 0 <= k < |pieces| ==> ',' !in pieces[k]
    ensures ParseTags(Join(pieces, ',')) == Filter(StripAll(pieces), NonEmpty)
  {
    SplitJoin(pieces, ',');
  }

  /** An empty tag field gives no tags. */
  lemma ParseTagsOfEmpty()
    ensures ParseTags([]) == []
  {
    var blank: seq<string> := [""];
    assert Split([], ',') == blank;
    assert StripAll(blank) == blank;
    assert Filter(blank, NonEmpty) == [] by {
      assert blank[1..] == [];
    }
  }

  /** Stripping pieces that are already stripped changes none of them. */
  lemma StripAllStripped(pieces: seq<string>)
    requires forall k :: 0 <= k < |pieces| ==> IsStripped(pieces[k])
    ensures StripAll(pieces) == pieces
  {
    forall k | 0 <= k < |pieces|
      ensures StripAll(pieces)[k] == pieces[k]
    {
      StripStripped(pieces[k]);
    }
  }

  /** Tags that could have come out of the parser come out of it again
      unchanged when written back comma-separated. */
  lemma ParseTagsRoundTrip(tags: seq<string>)
    requires forall k :: 0 <= k < |tags| ==> tags[k] != [] && IsStripped(tags[k]) && ',' !in tags[k]
    ensures ParseTags(Join(tags, ',')) == tags
  {
    if tags == [] {
      ParseTagsOfEmpty();
    } else {
      ParseTagsOfJoin(tags);
      StripAllStripped(tags);
      FilterKeepsAll(tags, NonEmpty);
    }
  }

  lemma StripAfterSpace(w: string)
    requires IsStripped(w)
    ensures Strip([' '] + w) == w
  {
    assert [' '] + w == [' '] + w + [];
    StripUnique([' '] + w, [' '], w, []);
  }

  lemma StripPlaceholderPieces()
    ensures StripAll(["stress", " anxiety", " support"]) == ["stress", "anxiety", "support"]
  {
    StripStripped("stress");
    StripAfterSpace("anxiety");
    StripAfterSpace("support");
  }

  lemma JoinPlaceholder()
    ensures Join(["stress", " anxiety", " support"], ',') == "stress, anxiety, support"
  {
    var pieces := ["stress", " anxiety", " support"];
    assert Join(pieces[1..], ',') == " anxiety, support" by {
      assert pieces[1..][1..] == [" support"];
    }
  }

  /** The example from the tag field's placeholder. */
  lemma ParseTagsPlaceholder()
    ensures ParseTags("stress, anxiety, support") == ["stress", "anxiety", "support"]
  {
    var pieces := ["stress", " anxiety", " support"];
    JoinPlaceholder();
    forall k | 0 <= k < |pieces|
      ensures ',' !in pieces[k]
    {
    }
    ParseTagsOfJoin(pieces);
    StripPlaceholderPieces();
    FilterKeepsAll(["stress", "anxiety", "support"], NonEmpty);
  }

  /** The five canned replies of the support chat. */
  const MockResponses := [
    "I understand this must be difficult for you. Can you tell me more about what you're experiencing?",
    "It sounds like you're going through a challenging time. Remember that seeking support is a sign of strength.",
    "Thank you for sharing that with me. Have you considered speaking with a mental health professional?",
    "Your feelings are valid. Here are some coping strategies that might help...",
    "I'm here to listen. Sometimes talking through our thoughts can provide clarity."
  ]
}
