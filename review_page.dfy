/** The redraft page: its submit handler sends the form to `/api/review-email` and reads the
    streamed answer line by line. A line `0:<json string>` carries a piece of text; the pieces
    are appended in arrival order to the result shown on the page. */
module ReviewPage {
  import opened Wrappers
  import opened Text
  import Json
  import Levels
  import ReviewEmailRoute

  /** A client as the page holds it. */
  datatype PageClient = PageClient(id: string, name: string, technicalKnowledge: int, description: string)

  /** How the request ends: a non-2xx status with its body text, a response without a body,
      a body read chunk by chunk (each chunk already decoded to text) that either ends or
      breaks off with an error message, or a failed `fetch` with its error message. */
  datatype ApiReply =
    | NotOk(status: nat, text: string)
    | NoBody
    | Stream(chunks: seq<string>, interrupted: Option<string>)
    | Threw(message: string)

  const NoContent: string := "No content received from API"

  const ConsoleHint: string := ". Please check the console for details."

  /** What the result shows after an error with message `m`: `Error: `, the message, and the
      hint to look at the console. */
  function ErrorText(m: string): (r: string)
    ensures StartsWith(r, "Error: ") && IsInfix(m, r)
    ensures OccursAt(m, r, 7) && |r| == 7 + |m| + |ConsoleHint| && r[7 + |m|..] == ConsoleHint
  {
    var r := "Error: " + m + ConsoleHint;
    assert OccursAt(m, r, 7);
    assert r[7 + |m|..] == ConsoleHint;
    r
  }

  // ----- the stream format -----

  /** `s.replace(/^"|"$/g, "")`: a leading quote and a trailing quote are each removed, one
      without the other when only one is there. */
  function StripQuotes(p: string): (r: string)
    ensures |r| <= |p|
    ensures p != [] && p[0] == '"' && |p| >= 2 && p[|p| - 1] == '"' ==> r == p[1..|p| - 1]
    ensures p != [] && p[0] == '"' && p[|p| - 1] != '"' ==> r == p[1..]
    ensures p != [] && p[0] != '"' && p[|p| - 1] == '"' ==> r == p[..|p| - 1]
    ensures p == "\"" ==> r == ""
    ensures (p == [] || p[0] != '"') && (p == [] || p[|p| - 1] != '"') ==> r == p
  {
    var q := if p != [] && p[0] == '"' then p[1..] else p;
    if q != [] && q[|q| - 1] == '"' then q[..|q| - 1] else q
  }

  /** The text one line contributes: a blank line or a line not starting with `0:` gives
      nothing; otherwise the payload after `0:` is read as JSON: a string gives its text,
      another value gives nothing, and a payload that is not JSON is taken literally with its
      surrounding quotes removed. */
  function LineText(line: string): string {
    if IsBlank(line) || !StartsWith(line, "0:") then ""
    else
      match Json.Parse(line[2..])
      case JsonText(t) => t
      case OtherValue => ""
      case Invalid => StripQuotes(line[2..])
  }

  /** The text of a chunk's lines, in order. */
  function LinesText(lines: seq<string>): string {
    if lines == [] then "" else LinesText(lines[..|lines| - 1]) + LineText(lines[|lines| - 1])
  }

  lemma LinesTextStep(lines: seq<string>, j: nat)
    requires j < |lines|
    ensures LinesText(lines[..j + 1]) == LinesText(lines[..j]) + LineText(lines[j])
  {
    assert lines[..j + 1][..j] == lines[..j];
  }

  /** The text of one chunk: it is split on `\n` by itself, with nothing kept from the
      chunk before. */
  function ChunkText(chunk: string): string {
    LinesText(Split(chunk, '\n'))
  }

  /** The text of the whole stream, chunk after chunk. */
  function StreamText(chunks: seq<string>): string {
    if chunks == [] then "" else StreamText(chunks[..|chunks| - 1]) + ChunkText(chunks[|chunks| - 1])
  }

  lemma AppendAssoc(a: string, b: string, c: string)
    ensures a + b + c == a + (b + c)
  {
  }

  lemma StreamTextStep(chunks: seq<string>, i: nat)
    requires i < |chunks|
    ensures StreamText(chunks[..i + 1]) == StreamText(chunks[..i]) + ChunkText(chunks[i])
  {
    assert chunks[..i + 1][..i] == chunks[..i];
  }

  /** The result the handler leaves for a reply. */
  function Outcome(reply: ApiReply): string {
    match reply
    case NotOk(status, text) => ErrorText("API Error: " + Decimal(status) + " - " + text)
    case NoBody => ErrorText("No response body")
    case Threw(m) => ErrorText(m)
    case Stream(chunks, interrupted) =>
      if interrupted.Some? then ErrorText(interrupted.value)
      else if StreamText(chunks) == "" then ErrorText(NoContent)
      else StreamText(chunks)
  }

  // ----- the request -----

  /** `clients.find(c => c.id === id)`: the first client with that id. */
  function FindClient(clients: seq<PageClient>, id: string): (r: Option<PageClient>)
    ensures r.None? <==> forall c :: c in clients ==> c.id != id
    ensures r.Some? ==> r.value in clients && r.value.id == id
    ensures r.Some? ==> exists k :: 0 <= k < |clients| && clients[k] == r.value
                           && forall j :: 0 <= j < k ==> clients[j].id != id
  {
    if clients == [] then None
    else if clients[0].id == id then Some(clients[0])
    else
      var r := FindClient(clients[1..], id);
      assert forall c :: c in clients[1..] ==> c in clients;
      assert forall c :: c in clients ==> c == clients[0] || c in clients[1..];
      if r.Some? then
        var k :| 0 <= k < |clients[1..]| && clients[1..][k] == r.value
                 && forall j :: 0 <= j < k ==> clients[1..][j].id != id;
        assert clients[k + 1] == r.value;
        assert forall j :: 0 <= j < k + 1 ==> clients[j].id != id by {
          forall j | 0 <= j < k + 1 ensures clients[j].id != id {
            if j > 0 { assert clients[j] == clients[1..][j - 1]; }
          }
        }
        r
      else r
  }

  /** The body the page posts: all three fields as typed, and the selected client if any;
      the route reads the client's name and level. */
  function RequestOf(originalEmail: string, context: string, prompt: string,
                     clients: seq<PageClient>, selectedClient: string): (req: ReviewEmailRoute.Request)
    ensures req.originalEmail == Some(originalEmail) && req.context == Some(context)
    ensures req.prompt == Some(prompt)
    ensures req.client.Some? <==> exists c :: c in clients && c.id == selectedClient
  {
    var found := FindClient(clients, selectedClient);
    ReviewEmailRoute.Request(Some(originalEmail), Some(context), Some(prompt),
      if found.Some? then Some(ReviewEmailRoute.Recipient(found.value.name, Some(found.value.technicalKnowledge)))
      else None)
  }

  // ----- the page -----

  class ReviewForm {
    var originalEmail: string
    var context: string
    var prompt: string
    var selectedClient: string
    var clients: seq<PageClient>
    var isAnalyzing: bool
    var result: string

    constructor(clients: seq<PageClient>)
      ensures this.clients == clients && selectedClient == "default"
      ensures originalEmail == "" && context == "" && prompt == "" && result == "" && !isAnalyzing
    {
      this.clients := clients;
      selectedClient := "default";
      originalEmail, context, prompt, result := "", "", "", "";
      isAnalyzing := false;
    }

    /** `handleReviewEmail`. With a blank email or prompt nothing happens and nothing is sent.
        Otherwise the request is sent, `reply` is what comes back, the stream is read, and the
        result is the streamed text or an error text. */
    method HandleReviewEmail(reply: ApiReply) returns (sent: Option<ReviewEmailRoute.Request>)
      modifies this
      ensures originalEmail == old(originalEmail) && context == old(context) && prompt == old(prompt)
      ensures selectedClient == old(selectedClient) && clients == old(clients)
      ensures IsBlank(originalEmail) || IsBlank(prompt) ==>
                sent == None && result == old(result) && isAnalyzing == old(isAnalyzing)
      ensures !IsBlank(originalEmail) && !IsBlank(prompt) ==>
                sent == Some(RequestOf(originalEmail, context, prompt, clients, selectedClient))
                && result == Outcome(reply) && !isAnalyzing
    {
      if IsBlank(originalEmail) || IsBlank(prompt) {
        return None;
      }
      result := "";
      isAnalyzing := true;
      sent := Some(RequestOf(originalEmail, context, prompt, clients, selectedClient));
      ReadReply(reply);
      isAnalyzing := false;
    }

    /** The `try` block after the request is sent: a failed reply becomes an error text, a
        stream is read to its end, and an empty one is an error too. */
    method ReadReply(reply: ApiReply)
      requires result == ""
      modifies this
      ensures result == Outcome(reply)
      ensures originalEmail == old(originalEmail) && prompt == old(prompt) && context == old(context)
      ensures selectedClient == old(selectedClient) && clients == old(clients)
      ensures isAnalyzing == old(isAnalyzing)
    {
      match reply {
        case NotOk(status, text) =>
          result := ErrorText("API Error: " + Decimal(status) + " - " + text);
        case NoBody =>
          result := ErrorText("No response body");
        case Threw(m) =>
          result := ErrorText(m);
        case Stream(chunks, interrupted) =>
          var accumulated := ReadStream(chunks);
          if interrupted.Some? {
            result := ErrorText(interrupted.value);
          } else if accumulated == "" {
            result := ErrorText(NoContent);
          }
      }
    }

    /** The `while` loop over the chunks: the accumulator starts empty and ends as the text
        of the whole stream, which is also what the page shows. */
    method ReadStream(chunks: seq<string>) returns (accumulated: string)
      requires result == ""
      modifies this
      ensures accumulated == StreamText(chunks) && result == accumulated
      ensures originalEmail == old(originalEmail) && prompt == old(prompt) && context == old(context)
      ensures selectedClient == old(selectedClient) && clients == old(clients)
      ensures isAnalyzing == old(isAnalyzing)
    {
      accumulated := "";
      var i := 0;
      while i < |chunks|
        invariant 0 <= i <= |chunks|
        invariant accumulated == StreamText(chunks[..i]) && result == accumulated
        invariant originalEmail == old(originalEmail) && prompt == old(prompt) && context == old(context)
        invariant selectedClient == old(selectedClient) && clients == old(clients)
        invariant isAnalyzing == old(isAnalyzing)
      {
        accumulated := ReadChunk(chunks[i], accumulated);
        StreamTextStep(chunks, i);
        i := i + 1;
      }
      assert chunks[..i] == chunks;
    }

    /** The `for` loop over one chunk's lines. */
    method ReadChunk(chunk: string, before: string) returns (after: string)
      requires result == before
      modifies this
      ensures after == before + ChunkText(chunk) && result == after
      ensures originalEmail == old(originalEmail) && prompt == old(prompt) && context == old(context)
      ensures selectedClient == old(selectedClient) && clients == old(clients)
      ensures isAnalyzing == old(isAnalyzing)
    {
      var lines := Split(chunk, '\n');
      after := before;
      var j := 0;
      assert before + LinesText(lines[..0]) == before + "" == before;
      while j < |lines|
        invariant 0 <= j <= |lines|
        invariant after == before + LinesText(lines[..j]) && result == after
        invariant originalEmail == old(originalEmail) && prompt == old(prompt) && context == old(context)
        invariant selectedClient == old(selectedClient) && clients == old(clients)
        invariant isAnalyzing == old(isAnalyzing)
      {
        var next := ReadLine(lines[j], after);
        LinesTextStep(lines, j);
        AppendAssoc(before, LinesText(lines[..j]), LineText(lines[j]));
        after := next;
        j := j + 1;
      }
      assert lines[..j] == lines;
    }

    /** One line: skipped when blank, appended to when it is a text line, ignored otherwise. */
    method ReadLine(line: string, before: string) returns (after: string)
      requires result == before
      modifies this
      ensures after == before + LineText(line) && result == after
      ensures originalEmail == old(originalEmail) && prompt == old(prompt) && context == old(context)
      ensures selectedClient == old(selectedClient) && clients == old(clients)
      ensures isAnalyzing == old(isAnalyzing)
    {
      after := before;
      if IsBlank(line) {
        return;
      }
      if StartsWith(line, "0:") {
        var payload := line[2..];
        match Json.Parse(payload) {
          case JsonText(t) =>
            after := after + t;
            result := after;
          case OtherValue =>
          case Invalid =>
            after := after + StripQuotes(payload);
            result := after;
        }
      }
    }
  }

  /** `getTechnicalLevelText`. */
  function LevelText(level: int): string {
    if level <= 2 then "Beginner (Non-technical)"
    else if level <= 4 then "Intermediate (Some technical knowledge)"
    else "Advanced (High technical expertise)"
  }

  // ----- properties -----

  /** The stream is read chunk by chunk in arrival order: the text of two stretches of chunks
      is the text of the first followed by the text of the second. */
  lemma {:induction false} StreamTextAppend(a: seq<string>, b: seq<string>)
    ensures StreamText(a + b) == StreamText(a) + StreamText(b)
    decreases |b|
  {
    if b == [] {
      assert a + b == a;
    } else {
      var b' := b[..|b| - 1];
      assert (a + b)[..|a + b| - 1] == a + b';
      StreamTextAppend(a, b');
      AppendAssoc(StreamText(a), StreamText(b'), ChunkText(b[|b| - 1]));
    }
  }

  lemma {:induction false} LinesTextAppend(a: seq<string>, b: seq<string>)
    ensures LinesText(a + b) == LinesText(a) + LinesText(b)
    decreases |b|
  {
    if b == [] {
      assert a + b == a;
    } else {
      var b' := b[..|b| - 1];
      assert (a + b)[..|a + b| - 1] == a + b';
      LinesTextAppend(a, b');
      AppendAssoc(LinesText(a), LinesText(b'), LineText(b[|b| - 1]));
    }
  }

  /** The lines of a chunk that start with `0:` */
  function TextLinesOf(lines: seq<string>): (r: seq<string>)
    ensures forall k :: 0 <= k < |r| ==> StartsWith(r[k], "0:")
  {
    if lines == [] then []
    else (if StartsWith(lines[0], "0:") then [lines[0]] else []) + TextLinesOf(lines[1..])
  }

  /** Only `0:` lines contribute: dropping every other line, the `d:`, `e:` and `f:` metadata
      lines included, leaves the text unchanged. */
  lemma {:induction false} OnlyTextLinesContribute(lines: seq<string>)
    ensures LinesText(TextLinesOf(lines)) == LinesText(lines)
  {
    if lines != [] {
      OnlyTextLinesContribute(lines[1..]);
      assert lines == [lines[0]] + lines[1..];
      LinesTextAppend([lines[0]], lines[1..]);
      var head := if StartsWith(lines[0], "0:") then [lines[0]] else [];
      LinesTextAppend(head, TextLinesOf(lines[1..]));
      assert LinesText([lines[0]]) == LinesText([]) + LineText(lines[0]);
    }
  }

  /** The line the server writes for a piece of text `t`: `0:` and `t` as a JSON string. */
  function TextLine(t: string): (line: string)
    ensures StartsWith(line, "0:") && '\n' !in line
  {
    "0:" + Json.Quote(t)
  }

  /** A text line gives back exactly its text, whatever characters the text holds. */
  lemma TextLineReadsBack(t: string)
    ensures LineText(TextLine(t)) == t
  {
    var line := TextLine(t);
    assert line[2..] == Json.Quote(t);
    Json.ParseQuote(t);
    assert line[0] == '0';
  }

  /** What the server sends for the pieces `ts`: one text line each, each ended by `\n`. */
  function Frame(ts: seq<string>): string {
    if ts == [] then "" else TextLine(ts[0]) + "\n" + Frame(ts[1..])
  }

  function Concat(ts: seq<string>): string {
    if ts == [] then "" else ts[0] + Concat(ts[1..])
  }

  /** The text lines of the pieces `ts`, one per piece. */
  function TextLines(ts: seq<string>): (lines: seq<string>)
    ensures |lines| == |ts|
  {
    if ts == [] then [] else [TextLine(ts[0])] + TextLines(ts[1..])
  }

  lemma {:induction false} SplitFrame(ts: seq<string>)
    ensures Split(Frame(ts), '\n') == TextLines(ts) + [""]
  {
    if ts != [] {
      SplitFrame(ts[1..]);
      SplitAfterPiece(TextLine(ts[0]), '\n', Frame(ts[1..]));
      assert Frame(ts) == TextLine(ts[0]) + ['\n'] + Frame(ts[1..]);
    }
  }

  lemma {:induction false} TextLinesReadBack(ts: seq<string>)
    ensures LinesText(TextLines(ts)) == Concat(ts)
  {
    if ts != [] {
      TextLinesReadBack(ts[1..]);
      LinesTextAppend([TextLine(ts[0])], TextLines(ts[1..]));
      assert LinesText([TextLine(ts[0])]) == LinesText([]) + LineText(TextLine(ts[0]));
      TextLineReadsBack(ts[0]);
    }
  }

  /** Round trip: a chunk holding whole text lines reads back as the concatenation of their
      texts. */
  lemma FrameReadsBack(ts: seq<string>)
    ensures ChunkText(Frame(ts)) == Concat(ts)
  {
    SplitFrame(ts);
    TextLinesReadBack(ts);
    var lines := TextLines(ts) + [""];
    assert lines[..|lines| - 1] == TextLines(ts);
    assert LineText("") == "";
  }

  /** The page shows exactly what the server streamed when every chunk holds whole lines. */
  lemma ShowsStreamedText(ts: seq<string>)
    requires Concat(ts) != ""
    ensures Outcome(Stream([Frame(ts)], None)) == Concat(ts)
  {
    FrameReadsBack(ts);
    OneChunk(Frame(ts));
  }

  lemma OneChunk(a: string)
    ensures StreamText([a]) == ChunkText(a)
  {
    assert [a][..0] == [];
    assert StreamText([a]) == StreamText([]) + ChunkText(a);
  }

  lemma TwoChunks(a: string, b: string)
    ensures StreamText([a, b]) == ChunkText(a) + ChunkText(b)
  {
    assert [a, b][..1] == [a];
    OneChunk(a);
  }

  /** Every outcome other than a completed stream with text is an error text, and so is a
      completed stream without text. */
  lemma FailuresShowError(reply: ApiReply)
    requires !reply.Stream? || reply.interrupted.Some? || StreamText(reply.chunks) == ""
    ensures StartsWith(Outcome(reply), "Error: ")
  {
    match reply
    case NotOk(status, text) =>
    case NoBody =>
    case Threw(m) =>
    case Stream(chunks, interrupted) =>
  }

  /** A chunk holding one line and no line break gives that line's text. */
  lemma SingleLineChunk(line: string)
    requires '\n' !in line
    ensures ChunkText(line) == LineText(line)
  {
    SplitNoSeparator(line, '\n');
    assert LinesText([line]) == LinesText([]) + LineText(line);
  }

  /** A chunk holding one line that is not a text line, and its line break, gives nothing. */
  lemma OtherLineChunk(line: string)
    requires '\n' !in line && !StartsWith(line, "0:")
    ensures ChunkText(line + "\n") == ""
  {
    SplitAfterPiece(line, '\n', "");
    assert line + "\n" == line + ['\n'] + "";
    assert Split("", '\n') == [""];
    assert LinesText([line, ""]) == LinesText([line]) + LineText("");
    assert LinesText([line]) == LinesText([]) + LineText(line);
  }

  /** No partial line is carried from one chunk to the next: a text line cut by a chunk
      boundary loses its second half, where the same characters in one chunk give the whole
      text. */
  lemma CutLineLosesText(whole: string, first: string, second: string)
    requires whole == "0:\"Hello\"\n" && first == "0:\"Hel" && second == "lo\"\n"
    ensures StreamText([whole]) == "Hello"
    ensures StreamText([first, second]) == "Hel"
  {
    assert StreamText([whole]) == "Hello" by {
      WholeLine();
      OneChunk(whole);
    }
    assert ChunkText(first) == "Hel" by {
      SingleLineChunk(first);
      FirstHalf();
    }
    assert ChunkText(second) == "" by {
      assert second == "lo\"" + "\n";
      OtherLineChunk("lo\"");
    }
    TwoChunks(first, second);
  }

  lemma WholeLine()
    ensures ChunkText("0:\"Hello\"\n") == "Hello"
  {
    FrameReadsBack(["Hello"]);
    HelloFrame();
    assert Concat(["Hello"]) == "Hello";
  }

  /** The line the server writes for the piece "Hello". */
  lemma HelloFrame()
    ensures Frame(["Hello"]) == "0:\"Hello\"\n"
  {
    Json.EscapePlain("Hello");
  }

  /** An unterminated string is not JSON. */
  lemma OpenStringInvalid()
    ensures Json.Parse("\"Hel") == Json.Invalid
  {
    assert Json.ParseString("\"Hel", 4, "Hel") == Json.Fail;
    assert Json.ParseString("\"Hel", 1, "") == Json.ParseString("\"Hel", 4, "Hel");
  }

  lemma FirstHalf()
    ensures LineText("0:\"Hel") == "Hel"
  {
    OpenStringInvalid();
    assert "0:\"Hel"[2..] == "\"Hel";
    assert StripQuotes("\"Hel") == "Hel";
  }

  /** Every request the page sends passes the route's validation: the page checks the same
      two fields for blankness before sending. */
  lemma SentRequestIsAccepted(originalEmail: string, context: string, prompt: string,
                              clients: seq<PageClient>, selectedClient: string)
    requires !IsBlank(originalEmail) && !IsBlank(prompt)
    ensures ReviewEmailRoute.Handle(RequestOf(originalEmail, context, prompt, clients, selectedClient)).Generate?
  {
  }

  /** The label the page shows for a level and the guidance the route writes for the same
      client fall in the same tier. */
  lemma LevelTextMatchesRoute(c: PageClient)
    ensures LevelText(c.technicalKnowledge) == "Beginner (Non-technical)" <==>
            ReviewEmailRoute.TechnicalContext(Some(ReviewEmailRoute.Recipient(c.name, Some(c.technicalKnowledge))))
              == ReviewEmailRoute.BeginnerSentence(c.name)
    ensures LevelText(c.technicalKnowledge) == "Intermediate (Some technical knowledge)" <==>
            ReviewEmailRoute.TechnicalContext(Some(ReviewEmailRoute.Recipient(c.name, Some(c.technicalKnowledge))))
              == ReviewEmailRoute.IntermediateSentence(c.name)
    ensures LevelText(c.technicalKnowledge) == "Advanced (High technical expertise)" <==>
            ReviewEmailRoute.TechnicalContext(Some(ReviewEmailRoute.Recipient(c.name, Some(c.technicalKnowledge))))
              == ReviewEmailRoute.AdvancedSentence(c.name)
  {
    ReviewEmailRoute.TechnicalContextTier(ReviewEmailRoute.Recipient(c.name, Some(c.technicalKnowledge)));
    LevelTextTier(c.technicalKnowledge);
  }

  /** The page's label follows the reference tiers. */
  lemma LevelTextTier(level: int)
    ensures LevelText(level) == "Beginner (Non-technical)" <==> Levels.TierOf(level) == Levels.Beginner
    ensures LevelText(level) == "Intermediate (Some technical knowledge)" <==> Levels.TierOf(level) == Levels.Intermediate
    ensures LevelText(level) == "Advanced (High technical expertise)" <==> Levels.TierOf(level) == Levels.Advanced
  {
    assert "Beginner (Non-technical)"[0] == 'B';
    assert "Intermediate (Some technical knowledge)"[0] == 'I';
    assert "Advanced (High technical expertise)"[0] == 'A';
  }
}
