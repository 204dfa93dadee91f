# Book-title search and line publishing, modelled in Dafny

This project models the core of a Kafka producer script that reads a book
(a Project Gutenberg text file) and publishes it line by line to a topic.

- **Title search** (`find_book_title_in_text_file`). Only the first 40
  lines are searched. A line is a title line when the regular expression
  `^Title:` matches it case-insensitively, which means only at position 0.
  On each hit, the candidate title is the line with its first
  `len("^Title:")` = 7 characters sliced off. That is the length of the
  pattern string, anchor included, so the space after the colon goes too
  and the newline stays: `"Title: Moby Dick\n"` gives `"Moby Dick\n"`. A
  line of 7 characters or fewer gives `""`. The search succeeds only when
  exactly one line of the window matches. Otherwise the source returns
  `False`. The model keeps the two failures apart as `NotFound` and
  `Ambiguous`.
- **Publishing** (`process_book_lines`). A falsy title (`False` or `""`)
  raises before anything is produced. Otherwise every line not exactly
  equal to `"\n"` becomes one message `{book_title, book_line}` to the
  topic, in file order. Bare newlines are only counted. The result is a
  statistics record: title, path, total lines, bare-newline lines and
  messages sent.

The producer is modelled as the sequence of `(topic, message)` pairs handed
to it, so "produce" is an append. The file is a `seq<string>` of lines as
`readlines()` returns them.

Layout:
- `wrappers.dfy`, module `Wrappers`: the `Option` and `Result` types.
- `title_search.dfy`, module `TitleSearch`:
  - the matching predicate `IsTitleLine`;
  - the loop as a fold (`Scan`/`Step`) and as a method with the source's
    loop variables (`FindBookTitle`);
  - the reference characterisation through `NoneMatch`, `TwoMatch` and
    `OnlyMatchAt`.
- `publishing.dfy`, module `Publishing`:
  - the filter `Sendable` and the messages `MessagesFor`;
  - the functional pass `ProcessBook`;
  - the loop `PublishLines` and the whole pass `ProcessBookLines`, written
    as the source runs them.

The title is sometimes described as "the line with the matched prefix
removed", which would give `" Moby Dick\n"`. The code removes
`len(regex_prefix)` characters, and the model follows the code. The
difference shows on a line like `"Title:Moby Dick\n"`: the code gives
`"oby Dick\n"`.

Case-insensitive matching follows the regular-expression engine's rule for
literals. Both sides are compared under the simple lower-case mapping, in
which `İ` (U+0130) lowers to `i`. The engine also treats the dotless `ı`
(U+0131) as equal to `i`. No other character lowers to a letter of
`title:`.

## Model

| member | source | states |
|---|---|---|
| TitleSearch.Window | kafka_producer.py:85 | The searched lines are a prefix of the file, at most 40 long. They are the whole file when it is shorter, and exactly 40 lines otherwise. |
| TitleSearch.StripPrefix | kafka_producer.py:88-89 | The first 7 characters of a line followed by the title give back the line. A line of 7 characters or fewer yields the empty title. |
| TitleSearch.StepOnTitleLine | kafka_producer.py:86-91 | After a hit, the loop state records the new line as the last hit. With no earlier hit it is the sole hit; with one it makes two. |
| TitleSearch.StepOnOtherLine | kafka_producer.py:85-86 | After a non-matching line, everything the loop state says about hits (none, last, sole, several) still holds for the longer prefix. |
| TitleSearch.ScanSummarizes | kafka_producer.py:78-91 | After scanning any lines, the count is 0 exactly when no line matched, and then there is no candidate. The candidate is the remainder of the last matching line. Count 1 means a single matching line. A count of 2 or more means two distinct matching lines exist. |
| TitleSearch.FindTitle | kafka_producer.py:66-98 | The result is NotFound exactly when no window line matches, and Ambiguous exactly when two window lines match. A found title is the remainder of the one and only matching window line. |
| TitleSearch.SoleMatchIsFound | kafka_producer.py:94-96 | Conversely, if window line k is the only title line, the result is Found with line k's remainder. |
| TitleSearch.OnlyWindowMatters | kafka_producer.py:85 | Two files that agree on their first 40 lines (and on which of those exist) get the same title outcome. |
| TitleSearch.AppendingBeyondWindowIgnored | kafka_producer.py:85 | Appending lines to a file of 40 or more lines leaves the title outcome unchanged. |
| TitleSearch.ChangingBeyondWindowIgnored | kafka_producer.py:85 | Replacing any line at index 40 or later leaves the title outcome unchanged. |
| TitleSearch.MatchIgnoresCase | kafka_producer.py:86 | A line matches exactly when its lower-cased form matches. |
| TitleSearch.LeadingCharacterMustMatch | kafka_producer.py:86 | A line whose first character does not lower to `t` never matches, whatever follows. The pattern is anchored at position 0. |
| TitleSearch.HeadDecides | kafka_producer.py:86 | Whether a line matches depends only on its first six characters. |
| TitleSearch.CapitalisationsMatch | kafka_producer.py:86 | `Title:`, `title:` and `TITLE:` are all title lines. |
| TitleSearch.AnyCaseOfPrefixMatches | kafka_producer.py:86 | A line starting with `Title:`, `title:` or `TITLE:` matches, whatever follows. The same line with a leading space does not. |
| TitleSearch.MobyDickLines | kafka_producer.py:86-89 | `"Title: Moby Dick\n"` matches and its remainder is `"Moby Dick\n"`. `"Author: Melville\n"` does not match. |
| TitleSearch.MobyDickExample | kafka_producer.py:66-98 | The two-line header `["Title: Moby Dick\n", "Author: Melville\n"]` yields the title `"Moby Dick\n"`. |
| TitleSearch.FindBookTitle | kafka_producer.py:78-98 | The imperative loop over the window, with `title_line`, `line_matched` and `count_matched`, returns exactly the outcome characterised by FindTitle. |
| Publishing.SendableCounts | kafka_producer.py:123-145 | No bare newline is sent. The lines sent plus the bare-newline lines in the file equal the number of lines. |
| Publishing.SendableKeepsOtherLines | kafka_producer.py:131-141 | Every line other than `"\n"` is sent exactly as many times as it occurs in the file. |
| Publishing.SendableDistributes | kafka_producer.py:128-141 | Filtering preserves order: the lines sent for `a + b` are those sent for `a` followed by those sent for `b`. |
| Publishing.OnlyBareNewlineIsSkipped | kafka_producer.py:131-145 | A next line of exactly `"\n"` adds nothing to what is sent. Any other next line is sent, appended last. |
| Publishing.WhitespaceLinesAreSent | kafka_producer.py:131 | `"\r\n"` and `"  \n"` are sent. Only the bare `"\n"` is dropped. |
| Publishing.MessagesFor | kafka_producer.py:132-139 | Every message goes to the given topic and carries the same book title. Reading the messages' lines back gives exactly the lines sent, in order. |
| Publishing.MessagesAppend | kafka_producer.py:128-141 | The messages for `a + b` are the messages for `a` followed by those for `b`. |
| Publishing.NextLineStep | kafka_producer.py:128-145 | One loop iteration: line k appends exactly its own message unless it is a bare newline, in which case nothing changes. |
| Publishing.ProcessBook | kafka_producer.py:101-156 | Fails, producing nothing, exactly when the title is falsy (no title line, several title lines, or an empty remainder). On success, the statistics carry the found title and the path. Also on success: total lines = number of lines; bare-newline count = occurrences of `"\n"`; bare-newline count + messages sent = total; the producer queue gains exactly one message per sent line, in file order, each with the topic and title. |
| Publishing.PublishLines | kafka_producer.py:126-145 | The loop with its two counters appends exactly the messages for the non-bare-newline lines. The counters add up to the number of lines. |
| Publishing.ProcessBookLines | kafka_producer.py:115-156 | The imperative pass (title search, truthiness test, loop, statistics record) returns exactly the outcome characterised by ProcessBook. |

## Left out

- `delivery_report`, `produce_kafka_message`, the `Producer` client and `flush()` are not modelled. They are broker I/O, asynchronous callbacks and printing. Producing is an append to a sequence that never fails. The source swallows `KafkaException` and `BufferError` from `produce` and still counts the line as sent. The model's `sentMessages` is the number of produce calls, which is the same count.
- `read_text_file_to_list` is not modelled, because it is file I/O. The lines are a parameter. The source reads the file twice (once in the title search, once in the pass), and the model assumes both reads return the same lines.
- `json.dumps` is not modelled, because it is library serialisation. A message is a plain record of title and line.
- Prefixes other than the default `^Title:` are not modelled, because no regular-expression engine is modelled. `FindTitle` and `ProcessBook` fix the prefix to the default, whose pattern length (7) is `StripLength`.
- The informational `print` calls, `display_producer_stats` and the `__main__` block are not modelled: they are output and hard-coded configuration.
- `kafka_create_topic.py` is not modelled: it is a thin wrapper around the Kafka Admin API with no logic of its own.
- The exception raised for a missing title is `BookError.TitleUnavailable` and carries no message text.
