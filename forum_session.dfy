/** The forum's session state (ui.py): the list of posts and the support-chat
    transcript, and the page actions that change them. */
module ForumSession {
  import opened Seqs
  import opened Forum

  function IdOf(p: Post): int
  {
    p.id
  }

  /** The ids of the posts, in list order. */
  function Ids(posts: seq<Post>): seq<int>
  {
    Map(posts, IdOf)
  }

  /** The ids are 1, ..., n in some order, n the number of posts. */
  ghost predicate IdsAreOneToN(posts: seq<Post>)
  {
    multiset(Ids(posts)) == Range(|posts|)
  }

  /** A post numbered n + 1 put in front of posts numbered 1, ..., n keeps
      the numbering 1, ..., n + 1. */
  lemma PrependNextId(post: Post, posts: seq<Post>)
    requires IdsAreOneToN(posts) && post.id == |posts| + 1
    ensures IdsAreOneToN([post] + posts)
  {
    MapAppend([post], posts, IdOf);
    assert Map([post], IdOf) == [post.id];
  }

  /** Ids numbered 1, ..., n are pairwise distinct, and the id a new post gets,
      n + 1, is not yet taken. */
  lemma IdsDistinct(posts: seq<Post>)
    requires IdsAreOneToN(posts)
    ensures forall i, j :: 0 <= i < j < |posts| ==> posts[i].id != posts[j].id
    ensures forall k :: 0 <= k < |posts| ==> 1 <= posts[k].id <= |posts|
  {
    var ids := Ids(posts);
    forall k | 0 <= k < |posts|
      ensures 1 <= posts[k].id <= |posts| && multiset(ids)[ids[k]] == 1
    {
      assert ids[k] in multiset(ids);
      RangeCount(|posts|, ids[k]);
    }
    forall i, j | 0 <= i < j < |posts|
      ensures posts[i].id != posts[j].id
    {
      TwoOccurrences(ids, i, j);
    }
  }

  /** The transcript starts with the assistant and then alternates: user
      message, assistant reply. */
  predicate Alternates(chat: seq<Message>)
  {
    |chat| % 2 == 1 && forall k :: 0 <= k < |chat| ==> chat[k].role == (if k % 2 == 0 then Assistant else User)
  }

  const Hour := 3600
  const Minute := 60

  const Greeting := Message(Assistant, "Hello! I'm here to provide mental health support and resources. How are you feeling today?")

  /** The texts of the sample posts and their replies. */
  const SarahPost := "Feeling overwhelmed with work stress lately. Anyone else dealing with similar feelings?"
  const MikeReply := "I completely understand. Taking short breaks throughout the day has helped me manage work stress better."
  const LisaReply := "Have you tried the 5-4-3-2-1 grounding technique? It really helps when I feel overwhelmed."
  const AlexPost := "Started therapy last week and feeling hopeful for the first time in months. Just wanted to share some positivity!"
  const EmmaReply := "That's wonderful! Taking that first step is always the hardest. Proud of you! \U{1F4AA}"
  const JordanPost := "Having trouble sleeping again. Any natural remedies that have worked for you?"

  /** The three sample posts a new session starts with, at instant now. */
  function InitialPosts(now: int): seq<Post>
  {
    [ Post(1, "Sarah M.", now - 2 * Hour, SarahPost, ["stress", "work"],
           [ Reply("Mike K.", now - Hour, MikeReply),
             Reply("Lisa R.", now - 30 * Minute, LisaReply) ]),
      Post(2, "Alex T.", now - 5 * Hour, AlexPost, ["therapy", "hope", "positivity"],
           [ Reply("Emma D.", now - 3 * Hour, EmmaReply) ]),
      Post(3, "Jordan P.", now - 24 * Hour, JordanPost, ["sleep", "insomnia"], []) ]
  }

  /** The sample posts are already in "Recent" order and in "Most Replies" order. */
  lemma InitialPostsSorted(now: int)
    ensures SortedDesc(InitialPosts(now), Recent)
    ensures SortedDesc(InitialPosts(now), MostReplies)
  {
    var posts := InitialPosts(now);
    assert |posts| == 3;
    assert Key(posts[0], Recent) > Key(posts[1], Recent) > Key(posts[2], Recent);
    assert Key(posts[0], MostReplies) > Key(posts[1], MostReplies) > Key(posts[2], MostReplies);
  }

  /** The sample posts are numbered 1, 2, 3. */
  lemma InitialIds(now: int)
    ensures IdsAreOneToN(InitialPosts(now))
  {
    var posts := InitialPosts(now);
    assert |posts| == 3;
    assert Ids(posts) == [1, 2, 3];
    assert Range(3) == multiset{1, 2, 3};
  }

  /** The author shown for a new post. */
  function AuthorName(isAnonymous: bool): string
  {
    if isAnonymous then "Anonymous" else "You"
  }

  /** `st.session_state`: the posts and the chat transcript of one browser session. */
  class Session {
    var posts: seq<Post>
    var chatMessages: seq<Message>

    ghost predicate Valid()
      reads this
    {
      IdsAreOneToN(posts) && Alternates(chatMessages)
    }

    /** A new session: the sample posts and the assistant's greeting. */
    constructor (now: int)
      ensures posts == InitialPosts(now) && chatMessages == [Greeting]
      ensures Valid()
    {
      posts := InitialPosts(now);
      chatMessages := [Greeting];
      InitialIds(now);
    }

    /** The community feed for a search term, a tag selection and a sort
        order: the tag options, and the posts shown. The list sorted is the
        session's own list when neither filter applies, so the session's
        posts are then left in the sorted order. */
    method CommunityFeed(searchTerm: string, selectedTags: seq<string>, order: SortBy)
      returns (tagOptions: set<string>, shown: seq<Post>)
      requires Valid()
      modifies this`posts
      ensures Valid()
      ensures forall t :: t in tagOptions <==> exists k :: 0 <= k < |old(posts)| && t in old(posts)[k].tags
      ensures shown == SortDesc(TagFilter(SearchFilter(old(posts), searchTerm), selectedTags), order)
      ensures posts == if searchTerm == [] && selectedTags == [] then shown else old(posts)
    {
      tagOptions := CollectTags(posts);
      var filtered := posts;
      if searchTerm != [] {
        filtered := SearchFilter(filtered, searchTerm);
      }
      if selectedTags != [] {
        filtered := TagFilter(filtered, selectedTags);
      }
      shown := SortDesc(filtered, order);
      if searchTerm == [] && selectedTags == [] {
        SortDescSortsPermutation(posts, order);
        MapPermutation(shown, posts, IdOf);
        posts := shown;
      }
    }

    /** Sharing a post: with content, a new post goes in front of all others,
        numbered one past the number of posts, with the parsed tags and no
        replies; without content nothing changes. */
    method SubmitPost(content: string, tagInput: string, isAnonymous: bool, now: int) returns (ok: bool)
      requires Valid()
      modifies this`posts
      ensures Valid()
      ensures ok <==> content != []
      ensures !ok ==> posts == old(posts)
      ensures ok ==> posts == [Post(|old(posts)| + 1, AuthorName(isAnonymous), now, content, ParseTags(tagInput), [])] + old(posts)
    {
      if content == [] {
        return false;
      }
      var post := Post(|posts| + 1, AuthorName(isAnonymous), now, content, ParseTags(tagInput), []);
      PrependNextId(post, posts);
      posts := [post] + posts;
      ok := true;
    }

    /** Replying under the post numbered id: a non-empty reply goes at the end
        of that post's replies and nowhere else; an empty one changes nothing. */
    method AddReply(id: int, content: string, now: int)
      requires Valid()
      requires id in Ids(posts)
      modifies this`posts
      ensures Valid()
      ensures |posts| == |old(posts)|
      ensures forall k :: 0 <= k < |posts| ==>
                posts[k] == if old(posts)[k].id == id && content != []
                            then old(posts)[k].(replies := old(posts)[k].replies + [Reply("You", now, content)])
                            else old(posts)[k]
    {
      if content != [] {
        var k := IndexOf(Ids(posts), id);
        IdsDistinct(posts);
        var post := posts[k];
        posts := posts[k := post.(replies := post.replies + [Reply("You", now, content)])];
        assert Ids(posts) == Ids(old(posts));
      }
    }

    /** Sending a chat message: a non-empty message is followed by one of the
        canned replies, and both are appended; an empty one changes nothing. */
    method SendChat(input: string) returns (response: string)
      requires Valid()
      modifies this`chatMessages
      ensures Valid()
      ensures input == [] ==> chatMessages == old(chatMessages)
      ensures input != [] ==>
                response in MockResponses
                && chatMessages == old(chatMessages) + [Message(User, input), Message(Assistant, response)]
    {
      if input == [] {
        return "";
      }
      chatMessages := chatMessages + [Message(User, input)];
      var k :| 0 <= k < |MockResponses|;
      response := MockResponses[k];
      chatMessages := chatMessages + [Message(Assistant, response)];
    }
  }
}
