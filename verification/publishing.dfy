/**
 The line-publishing pass over one book: find the title, refuse to go on
 without a usable one, then send one message per line that is not a bare
 newline, counting what was sent and what was skipped. The message broker's
 producer is modelled as the sequence of messages handed to it, in order.
 */
module Publishing {
  import opened Wrappers
  import opened TitleSearch

  /** The only kind of line that is skipped: exactly one newline character. */
  const NewlineOnly: string := "\n"

  /** The JSON object `{"book_title": …, "book_line": …}` sent per line. */
  datatype Message = Message(bookTitle: string, bookLine: string)

  /** One call to the producer: the topic and the message given to it. */
  datatype Produced = Produced(topic: string, message: Message)

  /** The statistics record returned for a published book. */
  datatype Stats = Stats(
    bookTitle: string,
    filePath: string,
    totalLines: nat,
    newlineLines: nat,
    sentMessages: nat)

  /** The exception raised when the file has no usable title. */
  datatype BookError = TitleUnavailable

  /** The outcome of one pass and the producer's queue after it. */
  datatype Run = Run(result: Result<Stats, BookError>, producer: seq<Produced>)

  /** Python truthiness of the title search's return value: `False` (no or
      several title lines) and the empty string are both falsy. */
  predicate TitleUsable(t: TitleOutcome)
  {
    t.Found? && t.title != ""
  }

  /** The lines that get sent: every line except those equal to `"\n"`,
      in their original order. */
  function Sendable(lines: seq<string>): (kept: seq<string>)
  {
    if |lines| == 0 then []
    else
      var front, line := lines[..|lines| - 1], lines[|lines| - 1];
      assert front + [line] == lines;
      if line == NewlineOnly then Sendable(front) else Sendable(front) + [line]
  }

  /** Bare newlines are all dropped, and every dropped line is one: the lines
      sent and the bare newlines together account for every line. */
  lemma {:induction false} SendableCounts(lines: seq<string>)
    ensures multiset(Sendable(lines))[NewlineOnly] == 0
    ensures |Sendable(lines)| + multiset(lines)[NewlineOnly] == |lines|
  {
    if |lines| > 0 {
      var front, line := lines[..|lines| - 1], lines[|lines| - 1];
      assert front + [line] == lines;
      SendableCounts(front);
    }
  }

  /** Nothing but bare newlines is dropped: every other line is sent as
      many times as it occurs in the file. */
  lemma {:induction false} SendableKeepsOtherLines(lines: seq<string>, l: string)
    requires l != NewlineOnly
    ensures multiset(Sendable(lines))[l] == multiset(lines)[l]
  {
    if |lines| > 0 {
      var front, line := lines[..|lines| - 1], lines[|lines| - 1];
      assert front + [line] == lines;
      SendableKeepsOtherLines(front, l);
    }
  }

  /** Filtering is order preserving: the lines sent for a file are the lines
      sent for its first part followed by those sent for the rest. */
  lemma {:induction false} SendableDistributes(a: seq<string>, b: seq<string>)
    ensures Sendable(a + b) == Sendable(a) + Sendable(b)
    decreases |b|
  {
    if |b| == 0 {
      assert a + b == a;
    } else {
      var front, line := b[..|b| - 1], b[|b| - 1];
      assert (a + b)[..|a + b| - 1] == a + front;
      assert (a + b)[|a + b| - 1] == line;
      SendableDistributes(a, front);
    }
  }

  /** A single line is sent unless it is exactly `"\n"`; lines holding a
      carriage return or spaces before the newline are sent. */
  lemma {:induction false} OnlyBareNewlineIsSkipped(lines: seq<string>, line: string)
    ensures line == NewlineOnly ==> Sendable(lines + [line]) == Sendable(lines)
    ensures line != NewlineOnly ==> Sendable(lines + [line]) == Sendable(lines) + [line]
  {
    assert (lines + [line])[..|lines|] == lines;
  }

  /** Blank-looking lines other than a bare newline are published. */
  lemma WhitespaceLinesAreSent()
    ensures Sendable(["\r\n", "  \n", "\n", "Call me Ishmael.\n"]) == ["\r\n", "  \n", "Call me Ishmael.\n"]
  {
    var lines := ["\r\n", "  \n", "\n", "Call me Ishmael.\n"];
    assert lines[..3][..2][..1] == ["\r\n"];
    assert lines[..3][..2] == lines[..3][..2][..1] + ["  \n"];
    assert lines[..3] == lines[..3][..2] + ["\n"];
    assert lines == lines[..3] + ["Call me Ishmael.\n"];
    OnlyBareNewlineIsSkipped([], "\r\n");
    OnlyBareNewlineIsSkipped(["\r\n"], "  \n");
    OnlyBareNewlineIsSkipped(lines[..2], "\n");
    OnlyBareNewlineIsSkipped(lines[..3], "Call me Ishmael.\n");
  }

  /** The book lines carried by a sequence of produced messages, in order:
      what a consumer of the topic reads back. */
  function BookLines(sent: seq<Produced>): seq<string>
  {
    seq(|sent|, k requires 0 <= k < |sent| => sent[k].message.bookLine)
  }

  /** The messages produced for `kept`, one per line, each to `topic` and
      each carrying the same `title`. */
  function MessagesFor(title: string, topic: string, kept: seq<string>): (sent: seq<Produced>)
    ensures forall m :: m in sent ==> m.topic == topic && m.message.bookTitle == title
    ensures BookLines(sent) == kept
  {
    seq(|kept|, k requires 0 <= k < |kept| => Produced(topic, Message(title, kept[k])))
  }

  /** Messages are produced line by line: those for `a + b` are those for
      `a` followed by those for `b`. */
  lemma MessagesAppend(title: string, topic: string, a: seq<string>, b: seq<string>)
    ensures MessagesFor(title, topic, a + b) == MessagesFor(title, topic, a) + MessagesFor(title, topic, b)
  {
    var whole, left, right := MessagesFor(title, topic, a + b), MessagesFor(title, topic, a), MessagesFor(title, topic, b);
    assert |whole| == |left + right|;
    forall k | 0 <= k < |whole| ensures whole[k] == (left + right)[k] {
      if k < |a| {
        assert (a + b)[k] == a[k];
      } else {
        assert (a + b)[k] == b[k - |a|];
      }
    }
  }

  /** Producing for one more kept line appends exactly its message. */
  lemma MessageForNextLine(title: string, topic: string, kept: seq<string>, line: string)
    ensures MessagesFor(title, topic, kept + [line]) == MessagesFor(title, topic, kept) + [Produced(topic, Message(title, line))]
  {
    MessagesAppend(title, topic, kept, [line]);
  }

  /** One iteration of the publishing loop, seen through `Sendable` and
      `MessagesFor`: line `k` adds its message unless it is a bare newline. */
  lemma NextLineStep(title: string, topic: string, lines: seq<string>, k: int)
    requires 0 <= k < |lines|
    ensures lines[k] != NewlineOnly ==>
      && Sendable(lines[..k + 1]) == Sendable(lines[..k]) + [lines[k]]
      && MessagesFor(title, topic, Sendable(lines[..k + 1]))
         == MessagesFor(title, topic, Sendable(lines[..k])) + [Produced(topic, Message(title, lines[k]))]
    ensures lines[k] == NewlineOnly ==> Sendable(lines[..k + 1]) == Sendable(lines[..k])
  {
    assert lines[..k + 1] == lines[..k] + [lines[k]];
    OnlyBareNewlineIsSkipped(lines[..k], lines[k]);
    if lines[k] != NewlineOnly {
      MessageForNextLine(title, topic, Sendable(lines[..k]), lines[k]);
    }
  }

  /** `process_book_lines`: publish every line of the book but bare newlines,
      or fail, sending nothing, when the title search gives no usable title. */
  function ProcessBook(producer: seq<Produced>, filePath: string, lines: seq<string>, topic: string): (run: Run)
    ensures run.result.Failure? <==> !TitleUsable(FindTitle(lines))
    ensures run.result.Failure? ==> run.producer == producer
    ensures run.result.Success? ==>
      var st := run.result.value;
      && FindTitle(lines) == Found(st.bookTitle)
      && st.bookTitle != ""
      && st.filePath == filePath
      && st.totalLines == |lines|
      && st.newlineLines == multiset(lines)[NewlineOnly]
      && st.newlineLines + st.sentMessages == st.totalLines
      && |run.producer| == |producer| + st.sentMessages
      && run.producer[..|producer|] == producer
      && BookLines(run.producer[|producer|..]) == Sendable(lines)
      && forall m :: m in run.producer[|producer|..] ==>
           m.topic == topic && m.message.bookTitle == st.bookTitle
  {
    var bookTitle := FindTitle(lines);
    if TitleUsable(bookTitle) then
      var kept := Sendable(lines);
      SendableCounts(lines);
      var sent := MessagesFor(bookTitle.title, topic, kept);
      var run := Run(Success(Stats(bookTitle.title, filePath, |lines|, |lines| - |kept|, |kept|)), producer + sent);
      assert run.producer[..|producer|] == producer;
      assert run.producer[|producer|..] == sent;
      run
    else
      Run(Failure(TitleUnavailable), producer)
  }

  /** The loop of the source over all lines: a message for each line that
      is not a bare newline, a count for each that is. */
  method PublishLines(producer: seq<Produced>, title: string, lines: seq<string>, topic: string)
    returns (queue: seq<Produced>, newlineLines: nat, sentMessages: nat)
    ensures queue == producer + MessagesFor(title, topic, Sendable(lines))
    ensures sentMessages == |Sendable(lines)|
    ensures newlineLines + sentMessages == |lines|
  {
    newlineLines, sentMessages := 0, 0;
    queue := producer;
    var k := 0;
    while k < |lines|
      invariant 0 <= k <= |lines|
      invariant queue == producer + MessagesFor(title, topic, Sendable(lines[..k]))
      invariant sentMessages == |Sendable(lines[..k])|
      invariant newlineLines + sentMessages == k
    {
      var line := lines[k];
      NextLineStep(title, topic, lines, k);
      if line != NewlineOnly {
        queue := queue + [Produced(topic, Message(title, line))];
        sentMessages := sentMessages + 1;
      } else {
        newlineLines := newlineLines + 1;
      }
      k := k + 1;
    }
    assert lines[..k] == lines;
  }

  /** The pass as the source runs it: the title search, the truthiness test,
      then the publishing loop and the statistics record. */
  method ProcessBookLines(producer: seq<Produced>, filePath: string, lines: seq<string>, topic: string)
    returns (run: Run)
    ensures run == ProcessBook(producer, filePath, lines, topic)
  {
    var bookTitle := FindBookTitle(lines);
    if bookTitle.Found? && bookTitle.title != "" {
      var totalLines := |lines|;
      var queue, newlineLines, sentMessages := PublishLines(producer, bookTitle.title, lines, topic);
      run := Run(Success(Stats(bookTitle.title, filePath, totalLines, newlineLines, sentMessages)), queue);
    } else {
      run := Run(Failure(TitleUnavailable), producer);
    }
  }
}
