/**
 * The queue file of every generation: one path per line.  Readers keep
 * the stripped, non-blank lines; writers put a newline after each item.
 * Lines are split on '\n' only.
 */
module QueueFile {
  import opened PyStr

  /** The file as an operation finds it: absent, failing to read, or holding text. */
  datatype TextFile = Missing | Unreadable | Text(content: string)

  /** An item that survives being written and read back unchanged. */
  predicate Clean(item: string) {
    item != [] && Stripped(item) && '\n' !in item
  }

  predicate AllClean(items: seq<string>) {
    forall k :: 0 <= k < |items| ==> Clean(items[k])
  }

  /** `[line.strip() for line in lines if line.strip()]`. */
  function KeepNonBlank(lines: seq<string>): (r: seq<string>)
    ensures |r| <= |lines|
    ensures forall k :: 0 <= k < |r| ==> r[k] != [] && Stripped(r[k])
  {
    if lines == [] then []
    else if Strip(lines[0]) != [] then [Strip(lines[0])] + KeepNonBlank(lines[1..])
    else KeepNonBlank(lines[1..])
  }

  /** The items a reader finds in the file's text. */
  function Read(text: string): seq<string> {
    KeepNonBlank(Split(text, '\n'))
  }

  /** Each item followed by a newline. */
  function Terminated(items: seq<string>): (r: string)
    ensures r == [] <==> items == []
    ensures items != [] ==> r[|r| - 1] == '\n'
  {
    if items == [] then [] else items[0] + "\n" + Terminated(items[1..])
  }

  lemma {:induction false} KeepNonBlankConcat(a: seq<string>, b: seq<string>)
    ensures KeepNonBlank(a + b) == KeepNonBlank(a) + KeepNonBlank(b)
  {
    if a == [] {
      assert a + b == b;
    } else {
      assert (a + b)[1..] == a[1..] + b;
      KeepNonBlankConcat(a[1..], b);
    }
  }

  /** Clean items pass the reader's filter untouched. */
  lemma {:induction false} KeepClean(items: seq<string>)
    requires AllClean(items)
    ensures KeepNonBlank(items) == items
  {
    if items != [] {
      KeepCleanHead(items[0], items[1..]);
      KeepClean(items[1..]);
      assert [items[0]] + items[1..] == items;
    }
  }

  lemma KeepCleanHead(head: string, tail: seq<string>)
    requires Clean(head)
    ensures KeepNonBlank([head] + tail) == [head] + KeepNonBlank(tail)
  {
    StripOfStripped(head);
    assert ([head] + tail)[1..] == tail;
  }

  /** Whatever the text, a reader only ever returns clean items. */
  lemma {:induction false} KeepNonBlankClean(lines: seq<string>)
    requires forall k :: 0 <= k < |lines| ==> '\n' !in lines[k]
    ensures AllClean(KeepNonBlank(lines))
  {
    if lines != [] {
      var tail := lines[1..];
      assert forall k :: 0 <= k < |tail| ==> tail[k] == lines[k + 1];
      KeepNonBlankClean(tail);
      var r, rt := KeepNonBlank(lines), KeepNonBlank(tail);
      var head := Strip(lines[0]);
      if head != [] {
        NotInStrip(lines[0], '\n');
        assert r == [head] + rt;
        forall k | 0 <= k < |r|
          ensures Clean(r[k])
        {
          if k > 0 {
            assert r[k] == rt[k - 1];
          }
        }
      } else {
        assert r == rt;
      }
    }
  }

  lemma {:induction false} SplitTerminated(items: seq<string>)
    requires forall k :: 0 <= k < |items| ==> '\n' !in items[k]
    ensures Split(Terminated(items), '\n') == items + [[]]
  {
    if items != [] {
      SplitTerminated(items[1..]);
      SplitCons(items[0], Terminated(items[1..]), '\n');
      assert items == [items[0]] + items[1..];
    }
  }

  /** Writing clean items one per line and reading the file gives them back. */
  lemma ReadTerminated(items: seq<string>)
    requires AllClean(items)
    ensures Read(Terminated(items)) == items
  {
    forall k | 0 <= k < |items|
      ensures '\n' !in items[k]
    {
      assert Clean(items[k]);
    }
    SplitTerminated(items);
    KeepNonBlankConcat(items, [[]]);
    assert KeepNonBlank([[]]) == [] by {
      assert Strip([]) == [];
    }
    KeepClean(items);
    assert Read(Terminated(items)) == KeepNonBlank(items) + KeepNonBlank([[]]);
  }

  lemma ReadClean(text: string)
    ensures AllClean(Read(text))
  {
    KeepNonBlankClean(Split(text, '\n'));
  }

  /** `"\n".join(items) + "\n"` is the same text as a newline after each item. */
  lemma {:induction false} JoinTerminated(items: seq<string>)
    requires |items| >= 1
    ensures Join(items, "\n") + "\n" == Terminated(items)
  {
    if |items| > 1 {
      JoinTerminated(items[1..]);
      assert Join(items, "\n") + "\n" == items[0] + "\n" + (Join(items[1..], "\n") + "\n");
    }
  }

  /** A file holding only newlines has no items. */
  lemma ReadNewline()
    ensures Read("") == [] && Read("\n") == []
  {
    assert Split("\n", '\n') == [[]] + Split([], '\n');
  }

  /** `any(entry.match(p) for p in patterns)`, with `matches` standing for `Path.match`. */
  predicate MatchesAny(entry: string, patterns: seq<string>, matches: (string, string) -> bool) {
    exists k :: 0 <= k < |patterns| && matches(entry, patterns[k])
  }

  /** The test an entry passes to stay in the queue after `rm`: it matches none of the patterns. */
  function Unmatched(patterns: seq<string>, matches: (string, string) -> bool): string -> bool {
    e => !MatchesAny(e, patterns, matches)
  }
}
