/** The pure parts of the summary request: the prompt built from the current
    feed and the banner text chosen from the generator's reply. The request
    itself is not part of this model. */
module Summary {
  import opened Types

  /** How many posts of the feed the prompt quotes. */
  const QuotedPosts: nat := 10

  /** `lines.join('\n')`. */
  function JoinLines(lines: seq<string>): string {
    if lines == [] then ""
    else if |lines| == 1 then lines[0]
    else lines[0] + "\n" + JoinLines(lines[1..])
  }

  /** `text.split('\n')`: the pieces between line feeds; always at least one. */
  function SplitLines(text: string): (r: seq<string>)
    ensures |r| >= 1
  {
    if text == [] then [""]
    else
      var rest := SplitLines(text[1..]);
      if text[0] == '\n' then [""] + rest
      else [[text[0]] + rest[0]] + rest[1..]
  }

  predicate OneLine(s: string) {
    forall i :: 0 <= i < |s| ==> s[i] != '\n'
  }

  /** A line-feed-free prefix joins the first piece of the split. */
  lemma {:induction false} SplitLinesPrefix(line: string, rest: string)
    requires OneLine(line)
    ensures SplitLines(line + rest) == [line + SplitLines(rest)[0]] + SplitLines(rest)[1..]
  {
    if line != [] {
      assert (line + rest)[1..] == line[1..] + rest;
      SplitLinesPrefix(line[1..], rest);
      assert [line[0]] + (line[1..] + SplitLines(rest)[0]) == line + SplitLines(rest)[0];
    } else {
      var r := SplitLines(rest);
      assert line + rest == rest && line + r[0] == r[0];
      assert [r[0]] + r[1..] == r;
    }
  }

  /** Splitting undoes joining when no line holds a line feed, for any
      non-empty list of lines. */
  lemma {:induction false} SplitJoin(lines: seq<string>)
    requires |lines| >= 1
    requires forall i :: 0 <= i < |lines| ==> OneLine(lines[i])
    ensures SplitLines(JoinLines(lines)) == lines
  {
    if |lines| == 1 {
      SplitLinesPrefix(lines[0], "");
      assert lines[0] + "" == lines[0];
    } else {
      var tail := JoinLines(lines[1..]);
      SplitJoin(lines[1..]);
      SplitLinesPrefix(lines[0], "\n" + tail);
      assert ("\n" + tail)[1..] == tail;
      assert SplitLines("\n" + tail) == [""] + lines[1..];
      assert lines[0] + "\n" + tail == lines[0] + ("\n" + tail);
      assert lines[0] + "" == lines[0];
    }
  }

  /** The contents of the first ten posts of the feed, in feed order. */
  function QuotedContents(feed: seq<Post>): (r: seq<string>)
    ensures |r| == if |feed| < QuotedPosts then |feed| else QuotedPosts
    ensures forall i :: 0 <= i < |r| ==> r[i] == feed[i].content
  {
    var n := if |feed| < QuotedPosts then |feed| else QuotedPosts;
    seq(n, i requires 0 <= i < n => feed[i].content)
  }

  /** The fixed text before the quoted posts. An absent tab name is rendered
      as `undefined`, as a template literal renders it. */
  function PromptHeader(tabName: Option<string>): string {
    var name := if tabName.Some? then tabName.value else "undefined";
    "Review the following social media stream for the \"" + name +
    "\" group. Give me a 3-sentence summary of the main narratives and sentiment. \n"
  }

  /** No request is made for an empty feed; otherwise the prompt is the
      header followed by the quoted contents, one per line. */
  function SummaryPrompt(tabName: Option<string>, feed: seq<Post>): (r: Option<string>)
    ensures r.None? <==> feed == []
  {
    if feed == [] then None
    else Some(PromptHeader(tabName) + JoinLines(QuotedContents(feed)))
  }

  /** The prompt for a non-empty feed quotes exactly the first ten contents
      (fewer when the feed is shorter), in order, one per line: splitting the
      text after the header gives them back when none of the quoted contents
      holds a line feed. */
  lemma PromptQuotesFeed(tabName: Option<string>, feed: seq<Post>)
    requires feed != []
    requires forall i :: 0 <= i < |feed| && i < QuotedPosts ==> OneLine(feed[i].content)
    ensures SummaryPrompt(tabName, feed).Some?
    ensures var text := SummaryPrompt(tabName, feed).value;
            var header := PromptHeader(tabName);
            && |header| <= |text| && text[..|header|] == header
            && SplitLines(text[|header|..]) == QuotedContents(feed)
  {
    var header := PromptHeader(tabName);
    var body := JoinLines(QuotedContents(feed));
    assert (header + body)[..|header|] == header && (header + body)[|header|..] == body;
    SplitJoin(QuotedContents(feed));
  }

  /** What the generator gave back: a failure, or a reply whose text may be
      missing. */
  datatype Reply = Failed | Replied(text: Option<string>)

  const Unavailable := "Summary unavailable."
  const FailureNotice := "Failed to generate AI summary. Please check your connection."

  /** The banner text after a request: the reply's text when it is present
      and non-empty, a fixed notice otherwise, so the banner is never blank. */
  function SummaryText(reply: Reply): (r: string)
    ensures r != []
    ensures reply.Failed? ==> r == FailureNotice
    ensures reply.Replied? && reply.text.Some? && reply.text.value != [] ==> r == reply.text.value
    ensures reply.Replied? && (reply.text.None? || reply.text.value == []) ==> r == Unavailable
  {
    match reply
    case Failed => FailureNotice
    case Replied(text) => if text.Some? && text.value != [] then text.value else Unavailable
  }
}
