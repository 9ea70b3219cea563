/** The editor page of app/create/page.tsx: its tag list and tag input, the
    guard of its submit handler, and the file name and markdown text of its
    two downloads. */
module Editor {
  import opened Js
  import PublishRoute

  /** A tag as `addTag` stores it: non-empty and trimmed. */
  predicate IsTag(s: string) {
    s != "" && Trim(s) == s
  }

  /** No tag occurs twice. */
  predicate NoDuplicates(tags: seq<string>) {
    forall i, j :: 0 <= i < j < |tags| ==> tags[i] != tags[j]
  }

  /** Every tag is non-empty and trimmed, and no tag occurs twice. */
  predicate WellFormedTags(tags: seq<string>) {
    (forall i :: 0 <= i < |tags| ==> IsTag(tags[i])) && NoDuplicates(tags)
  }

  /** A non-blank input, trimmed, that is not yet a tag can be appended to a
      well-formed list. */
  lemma AppendTrimmed(tags: seq<string>, input: string)
    requires WellFormedTags(tags) && Trim(input) != "" && Trim(input) !in tags
    ensures WellFormedTags(tags + [Trim(input)])
  {
    TrimIdempotent(input);
    AppendTag(tags, Trim(input));
  }

  /** A new non-empty trimmed tag can be appended to a well-formed list. */
  lemma AppendTag(tags: seq<string>, t: string)
    requires WellFormedTags(tags) && IsTag(t) && t !in tags
    ensures WellFormedTags(tags + [t])
  {
    var r := tags + [t];
    forall i | 0 <= i < |r| ensures IsTag(r[i]) {
      if i < |tags| { assert r[i] == tags[i]; }
    }
    forall i, j | 0 <= i < j < |r| ensures r[i] != r[j] {
      assert r[i] == tags[i];
      if j < |tags| { assert r[j] == tags[j]; }
    }
  }

  /** `tags.filter((tag) => tag !== t)`: the tags other than `t`. */
  function Without(tags: seq<string>, t: string): (r: seq<string>)
    ensures forall x :: x in r <==> x in tags && x != t
  {
    if tags == [] then []
    else if tags[0] == t then Without(tags[1..], t)
    else [tags[0]] + Without(tags[1..], t)
  }

  /** Every copy of `t` goes and every other tag keeps its count. */
  lemma {:induction false} WithoutCounts(tags: seq<string>, t: string)
    ensures multiset(Without(tags, t)) == multiset(tags)[t := 0]
  {
    if tags != [] {
      assert tags == [tags[0]] + tags[1..];
      WithoutCounts(tags[1..], t);
    }
  }

  /** Filtering works piecewise, so the kept tags stay in their original order. */
  lemma {:induction false} WithoutConcat(a: seq<string>, b: seq<string>, t: string)
    ensures Without(a + b, t) == Without(a, t) + Without(b, t)
  {
    if a == [] {
      assert a + b == b;
    } else {
      assert (a + b)[0] == a[0] && (a + b)[1..] == a[1..] + b;
      WithoutConcat(a[1..], b, t);
    }
  }

  /** Removing a tag keeps the list well formed. */
  lemma WithoutWellFormed(tags: seq<string>, t: string)
    requires WellFormedTags(tags)
    ensures WellFormedTags(Without(tags, t))
  {
    WithoutNoDuplicates(tags, t);
    var r := Without(tags, t);
    forall i | 0 <= i < |r| ensures IsTag(r[i]) {
      assert r[i] in tags;
    }
  }

  /** Removing a tag repeats no tag. */
  lemma {:induction false} WithoutNoDuplicates(tags: seq<string>, t: string)
    requires NoDuplicates(tags)
    ensures NoDuplicates(Without(tags, t))
  {
    if tags != [] {
      assert NoDuplicates(tags[1..]);
      WithoutNoDuplicates(tags[1..], t);
      var rest := Without(tags[1..], t);
      if tags[0] != t {
        assert tags[0] !in rest by {
          forall k | 0 <= k < |tags[1..]| ensures tags[1..][k] != tags[0] {
            assert tags[1..][k] == tags[k + 1];
          }
        }
        var r := [tags[0]] + rest;
        forall i, j | 0 <= i < j < |r| ensures r[i] != r[j] {
          if i > 0 { assert r[i] == rest[i - 1]; }
          assert r[j] == rest[j - 1];
        }
      }
    }
  }

  /** An ASCII letter or digit: what `/[^a-z0-9]/gi` does not replace. */
  predicate IsAsciiAlphanumeric(c: char) {
    'a' <= c <= 'z' || 'A' <= c <= 'Z' || '0' <= c <= '9'
  }

  /** One character of the file name: `_` for anything but an ASCII letter or
      digit, the lower-case letter for a letter, the digit for a digit. */
  function SafeChar(c: char): (d: char)
    ensures 'a' <= d <= 'z' || '0' <= d <= '9' || d == '_'
    ensures d == '_' <==> !IsAsciiAlphanumeric(c)
    ensures 'A' <= c <= 'Z' ==> d == (c as int + 32) as char
    ensures 'a' <= c <= 'z' || '0' <= c <= '9' ==> d == c
  {
    if 'A' <= c <= 'Z' then (c as int - 'A' as int + 'a' as int) as char
    else if IsAsciiAlphanumeric(c) then c
    else '_'
  }

  /** `title.replace(/[^a-z0-9]/gi, "_").toLowerCase()`: one character per
      character of the title, each a lower-case letter, a digit or `_`. */
  function SafeFileName(title: string): (r: string)
    ensures |r| == |title|
    ensures forall i :: 0 <= i < |r| ==> r[i] == SafeChar(title[i])
  {
    if title == [] then [] else [SafeChar(title[0])] + SafeFileName(title[1..])
  }

  /** The file name of the JSON download. */
  function JsonFileName(title: string): (r: string)
    ensures |r| == |title| + 5 && r[..|title|] == SafeFileName(title) && r[|title|..] == ".json"
    ensures forall i :: 0 <= i < |title| ==> 'a' <= r[i] <= 'z' || '0' <= r[i] <= '9' || r[i] == '_'
  {
    SafeFileName(title) + ".json"
  }

  /** The file name of the markdown download. */
  function MarkdownFileName(title: string): (r: string)
    ensures |r| == |title| + 3 && r[..|title|] == SafeFileName(title) && r[|title|..] == ".md"
    ensures forall i :: 0 <= i < |title| ==> 'a' <= r[i] <= 'z' || '0' <= r[i] <= '9' || r[i] == '_'
  {
    SafeFileName(title) + ".md"
  }

  /** A file name is already safe: sanitising it again changes nothing. */
  lemma SafeFileNameIdempotent(title: string)
    ensures SafeFileName(SafeFileName(title)) == SafeFileName(title)
  {
    var once := SafeFileName(title);
    var twice := SafeFileName(once);
    forall i | 0 <= i < |once| ensures twice[i] == once[i] {
      assert SafeChar(once[i]) == once[i];
    }
  }

  /** The characters of all tags, counted together. */
  function TotalLength(tags: seq<string>): nat {
    if tags == [] then 0 else |tags[0]| + TotalLength(tags[1..])
  }

  /** `tags.join(sep)`. */
  function Join(tags: seq<string>, sep: string): (r: string)
    ensures |r| == TotalLength(tags) + (if tags == [] then 0 else (|tags| - 1) * |sep|)
    ensures tags != [] ==> r[..|tags[0]|] == tags[0]
  {
    if tags == [] then ""
    else if |tags| == 1 then tags[0]
    else tags[0] + sep + Join(tags[1..], sep)
  }

  /** Joining one more tag adds the separator and that tag at the end. */
  lemma {:induction false} JoinSnoc(tags: seq<string>, t: string, sep: string)
    requires tags != []
    ensures Join(tags + [t], sep) == Join(tags, sep) + sep + t
  {
    if |tags| > 1 {
      assert (tags + [t])[1..] == tags[1..] + [t];
      JoinSnoc(tags[1..], t, sep);
    }
  }

  /** The text of the markdown download: the title as a heading, then the
      category, the tags joined by ", ", the date, a rule, and the content. */
  function Markdown(title: string, category: string, tags: seq<string>, date: string, content: string): (md: string)
    ensures 2 + |title| <= |md| && md[..2 + |title|] == "# " + title
    ensures |md| >= |content| && md[|md| - |content|..] == content
    ensures var tagLine := "**Tags:** " + Join(tags, ", ");
      var at := 2 + |title| + 2 + |"**Category:** "| + |category| + 3;
      at + |tagLine| <= |md| && md[at..at + |tagLine|] == tagLine
  {
    var head := "# " + title + "\n\n";
    var categoryLine := "**Category:** " + category + "  \n";
    var tagLine := "**Tags:** " + Join(tags, ", ");
    var rest := "  \n**Created:** " + date + "\n\n---\n\n" + content;
    var md := head + categoryLine + tagLine + rest;
    assert md == (head + categoryLine) + tagLine + rest;
    assert md[..2 + |title|] == (head + categoryLine + tagLine + rest)[..2 + |title|];
    md
  }

  /** The state of the editor page. */
  class EditorState {
    var title: string
    var content: string
    var category: string
    var tags: seq<string>
    var newTag: string

    ghost predicate Valid()
      reads this
    {
      WellFormedTags(tags)
    }

    constructor ()
      ensures Valid()
      ensures title == "" && content == "" && category == "" && tags == [] && newTag == ""
    {
      title, content, category, tags, newTag := "", "", "", [], "";
    }

    /** `addTag()`: the trimmed input is appended, and the input cleared, only
        when it is non-empty and not yet a tag; otherwise nothing changes. */
    method AddTag()
      requires Valid()
      modifies this`tags, this`newTag
      ensures Valid()
      ensures var t := Trim(old(newTag));
        if t != "" && t !in old(tags) then tags == old(tags) + [t] && newTag == ""
        else tags == old(tags) && newTag == old(newTag)
    {
      var t := Trim(newTag);
      if t != "" && t !in tags {
        AppendTrimmed(tags, newTag);
        tags := tags + [t];
        newTag := "";
      }
    }

    /** `removeTag(t)`: every tag equal to `t` goes, the others stay in order. */
    method RemoveTag(t: string)
      requires Valid()
      modifies this`tags
      ensures Valid()
      ensures tags == Without(old(tags), t)
    {
      WithoutWellFormed(tags, t);
      tags := Without(tags, t);
    }

    /** The guard and request body of `handleSubmit()`: nothing is sent when
        the title or the content is blank after trimming; otherwise the body
        carries the fields as typed, and it passes the server's
        required-field check. */
    method HandleSubmit(userName: Option<string>, userId: Option<string>, createdAt: string)
      returns (request: Option<PublishRoute.PublishBody>)
      ensures request.None? <==> Trim(title) == "" || Trim(content) == ""
      ensures request.Some? ==>
        request.value == PublishRoute.PublishBody(
          Some(title), Some(content), Some(category), Some(tags),
          Some(Or(userName, "Anonymous")), userId, Some(createdAt), Some(true))
      ensures request.Some? ==> Truthy(request.value.title) && Truthy(request.value.content)
    {
      if Trim(title) == "" || Trim(content) == "" {
        return None;
      }
      request := Some(PublishRoute.PublishBody(
        Some(title), Some(content), Some(category), Some(tags),
        Some(Or(userName, "Anonymous")), userId, Some(createdAt), Some(true)));
    }
  }
}
