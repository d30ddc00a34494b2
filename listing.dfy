/** The topic list view: stored topics, optionally filtered by a tag, projected onto their
    summary fields in store order. */
module TopicListing {
  import opened Schemas

  /** The summary fields of a topic; `title` and `description` stay absent when the document
      lacks them. */
  datatype TopicSummary = TopicSummary(
    id: string,
    title: Option<string>,
    description: Option<string>,
    tags: seq<string>,
    estimatedMinutes: int,
    stepsCount: nat)

  /** Whether a tag filter is in force: an absent or empty tag lists every topic. */
  predicate Filtering(tag: Option<string>) {
    tag.Some? && tag.value != ""
  }

  /** Whether a document is listed: with no filter every one is; with a filter, those whose
      tag list is present and contains the tag. */
  predicate Listed(doc: TopicDoc, tag: Option<string>) {
    !Filtering(tag) || (doc.tags.Some? && tag.value in doc.tags.value)
  }

  /** The summary of one document, with no tags, ten minutes and no steps standing in for
      fields the document lacks. */
  function Summarize(doc: TopicDoc): (s: TopicSummary)
    ensures s.id == doc.id && s.title == doc.title && s.description == doc.description
    ensures s.tags == (if doc.tags.Some? then doc.tags.value else [])
    ensures s.estimatedMinutes == (if doc.estimatedMinutes.Some? then doc.estimatedMinutes.value else 10)
    ensures s.stepsCount == (if doc.steps.Some? then |doc.steps.value| else 0)
  {
    TopicSummary(doc.id, doc.title, doc.description, doc.tags.GetOr([]),
                 doc.estimatedMinutes.GetOr(10), |doc.steps.GetOr([])|)
  }

  /** Reference definition of the list: filter, then project, keeping order. */
  function Summaries(docs: seq<TopicDoc>, tag: Option<string>): (r: seq<TopicSummary>)
    ensures |r| <= |docs|
  {
    if docs == [] then []
    else (if Listed(docs[0], tag) then [Summarize(docs[0])] else []) + Summaries(docs[1..], tag)
  }

  lemma {:induction false} SummariesAppend(a: seq<TopicDoc>, b: seq<TopicDoc>, tag: Option<string>)
    ensures Summaries(a + b, tag) == Summaries(a, tag) + Summaries(b, tag)
  {
    if a == [] {
      assert a + b == b;
    } else {
      var head := if Listed(a[0], tag) then [Summarize(a[0])] else [];
      assert (a + b)[0] == a[0];
      assert (a + b)[1..] == a[1..] + b;
      calc {
        Summaries(a + b, tag);
        head + Summaries(a[1..] + b, tag);
        { SummariesAppend(a[1..], b, tag); }
        head + (Summaries(a[1..], tag) + Summaries(b, tag));
        (head + Summaries(a[1..], tag)) + Summaries(b, tag);
        Summaries(a, tag) + Summaries(b, tag);
      }
    }
  }

  /** A summary is listed exactly when some listed document projects onto it. */
  lemma {:induction false} SummariesMembership(docs: seq<TopicDoc>, tag: Option<string>, s: TopicSummary)
    ensures s in Summaries(docs, tag) <==>
      exists i :: 0 <= i < |docs| && Listed(docs[i], tag) && Summarize(docs[i]) == s
  {
    if docs != [] {
      SummariesMembership(docs[1..], tag, s);
      if s in Summaries(docs[1..], tag) {
        var i :| 0 <= i < |docs[1..]| && Listed(docs[1..][i], tag) && Summarize(docs[1..][i]) == s;
        assert docs[i + 1] == docs[1..][i];
      }
      if exists i :: 0 <= i < |docs| && Listed(docs[i], tag) && Summarize(docs[i]) == s {
        var i :| 0 <= i < |docs| && Listed(docs[i], tag) && Summarize(docs[i]) == s;
        if i > 0 {
          assert docs[1..][i - 1] == docs[i];
        }
      }
    }
  }

  /** Without a filter every document is listed, in store order. */
  lemma {:induction false} UnfilteredListsAll(docs: seq<TopicDoc>, tag: Option<string>)
    requires !Filtering(tag)
    ensures |Summaries(docs, tag)| == |docs|
    ensures forall i :: 0 <= i < |docs| ==> Summaries(docs, tag)[i] == Summarize(docs[i])
  {
    if docs != [] {
      UnfilteredListsAll(docs[1..], tag);
      assert forall i :: 1 <= i < |docs| ==> docs[1..][i - 1] == docs[i];
    }
  }

  /** Keeps the summaries that carry `tag`, in order. */
  function WithTag(summaries: seq<TopicSummary>, tag: string): seq<TopicSummary> {
    if summaries == [] then []
    else (if tag in summaries[0].tags then [summaries[0]] else []) + WithTag(summaries[1..], tag)
  }

  /** A filtered list is the unfiltered list with the summaries that lack the tag removed:
      the filter works on the tags the summaries show. */
  lemma {:induction false} FilteredIsSubsequence(docs: seq<TopicDoc>, tag: string)
    requires tag != ""
    ensures Summaries(docs, Some(tag)) == WithTag(Summaries(docs, None), tag)
  {
    if docs != [] {
      FilteredIsSubsequence(docs[1..], tag);
      var head := if Listed(docs[0], None) then [Summarize(docs[0])] else [];
      assert head == [Summarize(docs[0])];
      assert Summaries(docs, None) == [Summarize(docs[0])] + Summaries(docs[1..], None);
      assert (head + Summaries(docs[1..], None))[1..] == Summaries(docs[1..], None);
    }
  }

  /** The summary of a topic created through the schema shows its own tags, minutes and
      number of steps. */
  lemma StoredTopicSummary(id: string, t: Topic)
    ensures Summarize(StoredTopic(id, t))
      == TopicSummary(id, Some(t.title), Some(t.description), t.tags, t.estimatedMinutes, |t.steps|)
  {
  }

  /** A document that lacks tags, minutes and steps is summarised with no tags, ten minutes
      and a step count of zero. */
  lemma MissingFieldsSummary(id: string, title: Option<string>, description: Option<string>)
    ensures Summarize(TopicDoc(id, title, description, None, None, None))
      == TopicSummary(id, title, description, [], 10, 0)
  {
  }

  /** The listing loop of the list handler, over the documents the store returns. */
  method ListTopics(docs: seq<TopicDoc>, tag: Option<string>) returns (result: seq<TopicSummary>)
    ensures result == Summaries(docs, tag)
  {
    result := [];
    var i := 0;
    while i < |docs|
      invariant 0 <= i <= |docs|
      invariant result == Summaries(docs[..i], tag)
    {
      var it := docs[i];
      if Listed(it, tag) {
        result := result + [Summarize(it)];
      }
      assert Summaries([it], tag) == (if Listed(it, tag) then [Summarize(it)] else []) + Summaries([], tag);
      assert docs[..i + 1] == docs[..i] + [it];
      SummariesAppend(docs[..i], [it], tag);
      i := i + 1;
    }
    assert docs[..i] == docs;
  }
}
