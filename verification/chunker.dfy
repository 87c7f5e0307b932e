/** The simulated streaming of a final answer in eight-word chunks (internal/agent/agent.go:175-207). */
module Chunker {
  import opened Text

  /** The fields once one more character is read; `ends` says that a word is being read. */
  function Extended(words: seq<string>, ends: bool, c: char): seq<string> {
    if IsSpace(c) then words
    else if !ends || words == [] then words + [[c]]
    else words[..|words| - 1] + [words[|words| - 1] + [c]]
  }

  predicate MidWord(s: string) {
    s != "" && !IsSpace(s[|s| - 1])
  }

  /** `strings.Fields`: the maximal runs of non-space characters. */
  function Fields(s: string): (words: seq<string>)
    ensures MidWord(s) ==> words != []
  {
    if s == "" then []
    else Extended(Fields(s[..|s| - 1]), MidWord(s[..|s| - 1]), s[|s| - 1])
  }

  predicate IsWord(w: string) {
    w != "" && forall i :: 0 <= i < |w| ==> !IsSpace(w[i])
  }

  lemma {:induction false} FieldsAreWords(s: string)
    ensures forall i :: 0 <= i < |Fields(s)| ==> IsWord(Fields(s)[i])
  {
    if s != "" {
      FieldsAreWords(s[..|s| - 1]);
    }
  }

  lemma FieldsSnoc(s: string, c: char)
    ensures Fields(s + [c]) == Extended(Fields(s), MidWord(s), c)
    ensures MidWord(s) ==> Fields(s) != []
  {
    assert (s + [c])[..|s + [c]| - 1] == s;
    hide IsSpace;
  }

  lemma FieldsAppendSpace(s: string, c: char)
    requires IsSpace(c)
    ensures Fields(s + [c]) == Fields(s)
  {
    FieldsSnoc(s, c);
  }

  /** A word set off by white space is one more field. */
  lemma {:induction false} FieldsAppendWord(s: string, w: string)
    requires !MidWord(s) && IsWord(w)
    ensures Fields(s + w) == Fields(s) + [w]
  {
    hide Fields, MidWord, Extended;
    var front, c := w[..|w| - 1], w[|w| - 1];
    assert w == front + [c] && !IsSpace(c);
    assert s + w == s + front + [c];
    FieldsSnoc(s + front, c);
    if front == "" {
      assert s + front == s;
      ExtendedByNew(Fields(s), c);
    } else {
      assert IsWord(front);
      hide IsWord;
      FieldsAppendWord(s, front);
      EndsMidWord(s, front);
      ExtendedAtEnd(Fields(s), front, c);
    }
  }

  lemma ExtendedByNew(words: seq<string>, c: char)
    requires !IsSpace(c)
    ensures Extended(words, false, c) == words + [[c]]
  {
  }

  lemma EndsMidWord(s: string, w: string)
    requires IsWord(w)
    ensures MidWord(s + w)
  {
    assert (s + w)[|s + w| - 1] == w[|w| - 1];
  }

  lemma ExtendedAtEnd(words: seq<string>, w: string, c: char)
    requires !IsSpace(c)
    ensures Extended(words + [w], true, c) == words + [w + [c]]
  {
  }

  // ---- What the chunks must add up to ----

  /** A line with its words joined by single spaces. */
  function Tidy(line: string): string {
    Join(Fields(line), " ")
  }

  function TidyLines(lines: seq<string>): seq<string> {
    seq(|lines|, i requires 0 <= i < |lines| => Tidy(lines[i]))
  }

  /** The content with every line tidied. */
  function Rendered(content: string): string {
    Join(TidyLines(Split(content, '\n')), "\n")
  }

  function Concat(chunks: seq<string>): string {
    if chunks == [] then "" else Concat(chunks[..|chunks| - 1]) + chunks[|chunks| - 1]
  }

  lemma ConcatAppend(chunks: seq<string>, c: string)
    ensures Concat(chunks + [c]) == Concat(chunks) + c
  {
    assert (chunks + [c])[..|chunks|] == chunks;
  }

  /** One more part on the right. */
  lemma {:induction false} JoinAppend(parts: seq<string>, p: string, sep: string)
    ensures Join(parts + [p], sep) == if parts == [] then p else Join(parts, sep) + sep + p
  {
    if |parts| > 1 {
      JoinAppend(parts[1..], p, sep);
      assert (parts + [p])[1..] == parts[1..] + [p];
    } else if |parts| == 1 {
      assert (parts + [p])[1..] == [p];
    }
  }

  // ---- The loop ----

  ghost predicate EightEach(chunks: seq<string>) {
    forall i :: 0 <= i < |chunks| ==> |Fields(chunks[i])| == 8
  }

  /**
   The chunks add up to the content with each line's words joined by single spaces; each but
   the last holds exactly eight words, and the last at most eight.
   */
  method Chunks(content: string) returns (chunks: seq<string>)
    ensures Concat(chunks) == Rendered(content)
    ensures forall i :: 0 <= i < |chunks| - 1 ==> |Fields(chunks[i])| == 8
    ensures chunks != [] ==> |Fields(chunks[|chunks| - 1])| <= 8
    ensures forall i :: 0 <= i < |chunks| ==> chunks[i] != ""
  {
    hide Split, Fields, IsSpace;
    var lines := Split(content, '\n');
    var wordCount := 0;
    var buf := "";
    chunks := [];
    EmptyFields();
    var li := 0;
    while li < |lines|
      invariant 0 <= li <= |lines|
      invariant Concat(chunks) + buf == Join(TidyLines(lines[..li]), "\n")
      invariant Progress(chunks, buf, wordCount)
      invariant li == 0 ==> buf == ""
    {
      ghost var before := Join(TidyLines(lines[..li]), "\n");
      if li > 0 {
        FieldsAppendNewline(buf);
        buf := buf + "\n";
        before := before + "\n";
      }
      var words := Fields(lines[li]);
      FieldsAreWords(lines[li]);
      chunks, buf, wordCount := ChunkLine(chunks, buf, wordCount, words, before);
      LinesAppend(lines, li);
      li := li + 1;
    }
    assert lines[..li] == lines;
    if |buf| > 0 {
      ConcatAppend(chunks, buf);
      chunks := chunks + [buf];
    }
  }

  lemma EmptyFields()
    ensures Fields("") == [] && TidyLines([]) == []
  {
  }

  lemma FieldsAppendNewline(buf: string)
    ensures Fields(buf + "\n") == Fields(buf) && IsSpace('\n')
    ensures Fields(buf + " ") == Fields(buf) && IsSpace(' ')
  {
    FieldsAppendSpace(buf, '\n');
    FieldsAppendSpace(buf, ' ');
  }

  lemma LinesAppend(lines: seq<string>, li: nat)
    requires li < |lines|
    ensures Join(TidyLines(lines[..li + 1]), "\n")
         == (if li == 0 then "" else Join(TidyLines(lines[..li]), "\n") + "\n") + Join(Fields(lines[li]), " ")
  {
    hide Fields;
    JoinAppend(TidyLines(lines[..li]), Tidy(lines[li]), "\n");
    assert TidyLines(lines[..li + 1]) == TidyLines(lines[..li]) + [Tidy(lines[li])];
  }

  /** Full chunks sent, and what is buffered holds the words since the last one. */
  ghost predicate Progress(chunks: seq<string>, buf: string, wordCount: nat) {
    EightEach(chunks) && (forall i :: 0 <= i < |chunks| ==> chunks[i] != "")
    && |Fields(buf)| == wordCount % 8
  }

  method ChunkLine(sent: seq<string>, pending: string, counted: nat, words: seq<string>, ghost before: string)
    returns (chunks: seq<string>, buf: string, wordCount: nat)
    requires Progress(sent, pending, counted)
    requires Concat(sent) + pending == before
    requires !MidWord(pending)
    requires forall i :: 0 <= i < |words| ==> IsWord(words[i])
    ensures Progress(chunks, buf, wordCount)
    ensures Concat(chunks) + buf == before + Join(words, " ")
  {
    hide Fields, IsSpace, IsWord, Concat, Join;
    chunks, buf, wordCount := sent, pending, counted;
    var wi := 0;
    ghost var joined := "";
    EmptyJoin(words);
    while wi < |words|
      invariant 0 <= wi <= |words|
      invariant Progress(chunks, buf, wordCount)
      invariant joined == Join(words[..wi], " ")
      invariant Concat(chunks) + buf == before + joined
      invariant wi == 0 ==> !MidWord(buf)
    {
      ghost var sep := if wi > 0 then " " else "";
      JoinNext(words, wi);
      PushKeepsOutput(Concat(chunks), buf, before, joined, sep, words[wi]);
      if wi > 0 {
        FieldsAppendNewline(buf);
        buf := buf + " ";
      }
      FieldsAppendWord(buf, words[wi]);
      WordIsNotEmpty(words[wi]);
      buf := buf + words[wi];
      wordCount := wordCount + 1;
      joined := joined + sep + words[wi];
      if wordCount % 8 == 0 {
        ConcatAppend(chunks, buf);
        chunks := chunks + [buf];
        buf := "";
        EmptyFields();
      }
      wi := wi + 1;
    }
    assert words[..wi] == words;
  }

  lemma EmptyJoin(words: seq<string>)
    ensures Join(words[..0], " ") == ""
  {
  }

  lemma JoinNext(words: seq<string>, wi: nat)
    requires wi < |words|
    ensures Join(words[..wi + 1], " ") == Join(words[..wi], " ") + (if wi > 0 then " " else "") + words[wi]
  {
    assert words[..wi + 1] == words[..wi] + [words[wi]];
    JoinAppend(words[..wi], words[wi], " ");
  }

  lemma PushKeepsOutput(out: string, buf: string, before: string, joined: string, sep: string, w: string)
    requires out + buf == before + joined
    ensures out + (buf + sep + w) == before + (joined + sep + w)
    ensures sep == "" ==> buf + sep == buf
  {
    assert out + (buf + sep + w) == (out + buf) + sep + w;
    assert before + (joined + sep + w) == (before + joined) + sep + w;
  }

  lemma WordIsNotEmpty(w: string)
    requires IsWord(w)
    ensures w != ""
  {
  }

  // ---- Rendering loses no word ----

  /** White space separates fields: those on its left come first, then those on its right. */
  lemma {:induction false} FieldsAround(a: string, c: char, b: string)
    requires IsSpace(c)
    ensures Fields(a + [c] + b) == Fields(a) + Fields(b)
  {
    hide Fields, IsSpace;
    if b == "" {
      assert a + [c] + b == a + [c];
      FieldsAppendSpace(a, c);
      EmptyFields();
    } else {
      var front, last := b[..|b| - 1], b[|b| - 1];
      var left := a + [c] + front;
      FieldsAround(a, c, front);
      FieldsSnoc(front, last);
      FieldsSnoc(left, last);
      assert a + [c] + b == left + [last] && b == front + [last];
      assert left[|left| - 1] == if front == "" then c else front[|front| - 1];
      ExtendedBehind(Fields(a), Fields(front), MidWord(front), last);
    }
  }

  lemma ExtendedBehind(before: seq<string>, words: seq<string>, ends: bool, c: char)
    requires ends ==> words != []
    ensures Extended(before + words, ends, c) == before + Extended(words, ends, c)
  {
  }

  lemma {:induction false} FieldsOfJoin(words: seq<string>)
    requires forall i :: 0 <= i < |words| ==> IsWord(words[i])
    ensures Fields(Join(words, " ")) == words
  {
    hide IsSpace, IsWord;
    if |words| == 1 {
      FieldsAppendWord("", words[0]);
      assert "" + words[0] == words[0];
    } else if |words| > 1 {
      FieldsOfJoin(words[1..]);
      FieldsAppendWord("", words[0]);
      assert "" + words[0] == words[0];
      FieldsAppendNewline("");
      FieldsAround(words[0], ' ', Join(words[1..], " "));
    }
  }

  /** Tidying a line changes none of its words. */
  lemma TidyKeepsWords(line: string)
    ensures Fields(Tidy(line)) == Fields(line)
  {
    FieldsAreWords(line);
    FieldsOfJoin(Fields(line));
  }

  lemma {:induction false} JoinedLinesKeepWords(lines: seq<string>)
    ensures Fields(Join(TidyLines(lines), "\n")) == Fields(Join(lines, "\n"))
  {
    hide Fields, IsSpace, IsWord;
    if lines != [] {
      TidyKeepsWords(lines[0]);
      assert TidyLines(lines)[1..] == TidyLines(lines[1..]);
      if |lines| > 1 {
        JoinedLinesKeepWords(lines[1..]);
        FieldsAppendNewline("");
        FieldsAround(lines[0], '\n', Join(lines[1..], "\n"));
        FieldsAround(Tidy(lines[0]), '\n', Join(TidyLines(lines[1..]), "\n"));
      }
    }
  }

  /** The streamed text has exactly the words of the answer, in order. */
  lemma RenderingKeepsWords(content: string)
    ensures Fields(Rendered(content)) == Fields(content)
  {
    JoinedLinesKeepWords(Split(content, '\n'));
    JoinSplit(content, '\n');
  }

  // ---- Rendering keeps the lines, and single spaces between words ----

  lemma {:induction false} JoinHasNo(words: seq<string>, sep: char, c: char)
    requires c != sep && forall i :: 0 <= i < |words| ==> c !in words[i]
    ensures c !in Join(words, [sep])
  {
    if |words| > 1 {
      JoinHasNo(words[1..], sep, c);
    }
  }

  lemma WordHasNoSpace(w: string, c: char)
    requires IsWord(w) && IsSpace(c)
    ensures c !in w
  {
  }

  /** A tidied line has its words with one space between them and none around. */
  lemma {:induction false} TidyIsSingleSpaced(line: string)
    requires Fields(line) != []
    ensures Split(Tidy(line), ' ') == Fields(line)
  {
    var words := Fields(line);
    FieldsAreWords(line);
    assert IsSpace(' ');
    forall w | w in words
      ensures ' ' !in w
    {
      WordHasNoSpace(w, ' ');
    }
    hide Fields, IsWord, IsSpace, Split, Join;
    SplitJoin(words, ' ');
  }

  lemma TidyHasNoNewline(line: string)
    ensures '\n' !in Tidy(line)
  {
    var words := Fields(line);
    FieldsAreWords(line);
    assert IsSpace('\n');
    forall i | 0 <= i < |words|
      ensures '\n' !in words[i]
    {
      WordHasNoSpace(words[i], '\n');
    }
    hide Fields, IsWord, IsSpace, Join;
    JoinHasNo(words, ' ', '\n');
  }

  /** The streamed text has the answer's lines, one for one, each tidied. */
  lemma {:induction false} RenderingKeepsLines(content: string)
    ensures var lines, rendered := Split(content, '\n'), Split(Rendered(content), '\n');
      |rendered| == |lines| && forall i :: 0 <= i < |lines| ==> rendered[i] == Tidy(lines[i])
  {
    var lines := Split(content, '\n');
    var tidied := TidyLines(lines);
    forall p | p in tidied
      ensures '\n' !in p
    {
      var i :| 0 <= i < |tidied| && tidied[i] == p;
      TidyHasNoNewline(lines[i]);
    }
    hide Split, Join, Tidy;
    SplitJoin(tidied, '\n');
  }
}
