/** The `POST` handler of app/api/blogs/route.ts: the token gate, the check
    of the required fields, the derived excerpt and the defaults, and the one
    insert into the post table. */
module PublishRoute {
  import opened Js
  import opened BlogStore
  import Auth

  /** The JSON body of the request. The editor also sends `author`, `authorId`,
      `createdAt` and `published`; the handler reads none of them. */
  datatype PublishBody = PublishBody(
    title: Option<string>,
    content: Option<string>,
    category: Option<string>,
    tags: Option<seq<string>>,
    author: Option<string>,
    authorId: Option<string>,
    createdAt: Option<string>,
    published: Option<bool>)

  /** The JSON response: `{ success: true, id }` with status 200, or `{ error }` with its status. */
  datatype Response = Published(id: ObjectId) | Error(status: nat, error: string) {
    function Status(): nat {
      if Published? then 200 else status
    }
  }

  const ExcerptLength: nat := 200
  const Ellipsis := "..."
  const Unauthenticated := Error(401, "Authentication required")
  const MissingFields := Error(400, "Title and content are required")
  const CreateFailed := Error(500, "Failed to create blog post")

  /** `content.substring(0, 200) + "..."`: the first 200 characters (all of
      them when there are fewer), always followed by the ellipsis. */
  function Excerpt(content: string): (e: string)
    ensures |e| == Min(ExcerptLength, |content|) + |Ellipsis|
    ensures e[..|e| - |Ellipsis|] == content[..|e| - |Ellipsis|]
    ensures e[|e| - |Ellipsis|..] == Ellipsis
    ensures |content| <= ExcerptLength ==> e == content + Ellipsis
  {
    content[..Min(ExcerptLength, |content|)] + Ellipsis
  }

  /** Everything the handler decides before it touches the table: the
      response it gives up with, or the post it asks `createBlogPost` to store. */
  function Prepare(token: Option<Auth.TokenClaims>, body: Option<PublishBody>): (r: Result<NewPost, Response>)
    ensures token.None? ==> r == Failure(Unauthenticated)
    ensures token.Some? && body.None? ==> r == Failure(CreateFailed)
    ensures token.Some? && body.Some? && !(Truthy(body.value.title) && Truthy(body.value.content)) ==>
      r == Failure(MissingFields)
    ensures r.Success? <==>
      token.Some? && body.Some? && Truthy(body.value.title) && Truthy(body.value.content)
    ensures r.Success? ==>
      && r.value.title == body.value.title.value
      && r.value.content == body.value.content.value
      && r.value.excerpt == Excerpt(body.value.content.value)
      && r.value.author == (if Truthy(token.value.name) then token.value.name.value else "Anonymous")
      && r.value.authorId == (if token.value.id.Some? then token.value.id.value else " ")
      && r.value.category == (if Truthy(body.value.category) then body.value.category.value else "Uncategorized")
      && r.value.tags == (if body.value.tags.Some? then body.value.tags.value else [])
      && r.value.published
  {
    if token.None? then Failure(Unauthenticated)
    else if body.None? then Failure(CreateFailed)
    else
      var b := body.value;
      if !Truthy(b.title) || !Truthy(b.content) then Failure(MissingFields)
      else
        var t := token.value;
        Success(NewPost(
          b.title.value,
          b.content.value,
          Excerpt(b.content.value),
          Or(t.name, "Anonymous"),
          t.id.GetOr(" "),
          Or(b.category, "Uncategorized"),
          b.tags.GetOr([]),
          true))
  }

  /** `POST /api/blogs`. `body` is `None` when the request body is not JSON;
      `id` and `now` are what the driver and the clock supply. A refused
      request leaves the table as it was; an accepted one appends exactly the
      prepared post, stamped. */
  method Post(table: PostTable, token: Option<Auth.TokenClaims>, body: Option<PublishBody>, id: ObjectId, now: Date)
    returns (resp: Response)
    requires table.Valid()
    modifies table
    ensures table.Valid()
    ensures Prepare(token, body).Failure? ==> resp == Prepare(token, body).error && table.posts == old(table.posts)
    ensures Prepare(token, body).Success? && IndexOf(old(table.posts), id).Some? ==>
      resp == CreateFailed && table.posts == old(table.posts)
    ensures Prepare(token, body).Success? && IndexOf(old(table.posts), id).None? ==>
      resp == Published(id) && table.posts == old(table.posts) + [Stamp(Prepare(token, body).value, id, now)]
  {
    var prepared := Prepare(token, body);
    if prepared.Failure? {
      return prepared.error;
    }
    var result := table.CreateBlogPost(prepared.value, id, now);
    if result.Failure? {
      return CreateFailed;
    }
    resp := Published(result.value);
  }

  /** Author and author id come from the token alone: two bodies that agree on
      title, content, category and tags are prepared alike, whatever else they say. */
  lemma {:induction false} OnlyFourFieldsRead(token: Option<Auth.TokenClaims>, b1: PublishBody, b2: PublishBody)
    requires b1.title == b2.title && b1.content == b2.content
    requires b1.category == b2.category && b1.tags == b2.tags
    ensures Prepare(token, Some(b1)) == Prepare(token, Some(b2))
  {
  }

  /** Publishing a post as "Hi"/"World" into an empty table and then fetching
      it twice: both fetches find it with excerpt "World..."; because
      `getBlogPost` returns the record as read before its increment, the first
      shows `views` 0 and the second 1. */
  method PublishThenViewTwice(token: Auth.TokenClaims, id: ObjectId, now: Date)
    returns (resp: Response, first: Option<BlogPost>, second: Option<BlogPost>)
    ensures resp == Published(id)
    ensures first.Some? && first.value.title == "Hi" && first.value.excerpt == "World..."
    ensures first.value.views == 0
    ensures second.Some? && second.value.views == 1
  {
    var table := new PostTable();
    var body := PublishBody(Some("Hi"), Some("World"), None, None, None, None, None, None);
    resp := Post(table, Some(token), Some(body), id, now);
    assert Excerpt("World") == "World...";
    var stored := Stamp(Prepare(Some(token), Some(body)).value, id, now);
    assert table.posts == [stored];
    first := table.GetBlogPost(id);
    assert table.posts[0] == stored.(views := 1);
    second := table.GetBlogPost(id);
  }
}
