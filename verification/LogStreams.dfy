/** Grouping log lines into streams by namespace, pod and container. */
module LogStreams {
  import opened Common
  import opened Ordering
  import opened Strings

  datatype Entry = Entry(timestamp: string, text: string, level: Option<string>)

  datatype Labels = Labels(namespace: string, pod: string, container: string)

  /** A response line that parsed. */
  datatype Line = Line(labels: Labels, entry: Entry)

  datatype Stream = Stream(labels: Labels, entries: seq<Entry>)

  function KeyOf(l: Labels): string {
    l.namespace + "/" + l.pod + "/" + l.container
  }

  /** The streams of a response; None is a line that is empty or does not parse. */
  function Group(lines: seq<Option<Line>>): map<string, Stream> {
    if lines == [] then map[]
    else
      var n := |lines| - 1;
      var before := Group(lines[..n]);
      match lines[n]
      case None => before
      case Some(line) =>
        var k := KeyOf(line.labels);
        var stream := if k in before then before[k] else Stream(line.labels, []);
        before[k := stream.(entries := stream.entries + [line.entry])]
  }

  function Parsed(lines: seq<Option<Line>>): nat {
    if lines == [] then 0 else Parsed(lines[..|lines| - 1]) + if lines[|lines| - 1].Some? then 1 else 0
  }

  /** The loop of `query_vlogs`. */
  method GroupLines(lines: seq<Option<Line>>) returns (streams: map<string, Stream>, total: nat)
    ensures streams == Group(lines)
    ensures total == Parsed(lines)
  {
    streams, total := map[], 0;
    for i := 0 to |lines|
      invariant streams == Group(lines[..i])
      invariant total == Parsed(lines[..i])
    {
      assert lines[..i + 1][..i] == lines[..i];
      if lines[i].None? {
        continue;
      }
      var line := lines[i].value;
      var k := KeyOf(line.labels);
      if k !in streams {
        streams := streams[k := Stream(line.labels, [])];
      }
      streams := streams[k := streams[k].(entries := streams[k].entries + [line.entry])];
      total := total + 1;
    }
    assert lines[..|lines|] == lines;
  }

  // ------------------------------------------------------------------ grouping

  predicate HasKey(line: Option<Line>, k: string) {
    line.Some? && KeyOf(line.value.labels) == k
  }

  /** The entries of the lines with a key, in the order of the response. */
  function EntriesOf(lines: seq<Option<Line>>, k: string): seq<Entry> {
    if lines == [] then []
    else
      var n := |lines| - 1;
      EntriesOf(lines[..n], k) + if HasKey(lines[n], k) then [lines[n].value.entry] else []
  }

  /** The labels of the first line with a key. */
  function LabelsOf(lines: seq<Option<Line>>, k: string): Option<Labels> {
    if lines == [] then None
    else
      var before := LabelsOf(lines[..|lines| - 1], k);
      if before.Some? then before
      else if HasKey(lines[|lines| - 1], k) then Some(lines[|lines| - 1].value.labels)
      else None
  }

  /** A stream holds exactly the entries of its key's lines, in order, under the labels of the first of them. */
  lemma {:induction false} GroupExact(lines: seq<Option<Line>>, k: string)
    ensures k in Group(lines) <==> LabelsOf(lines, k).Some?
    ensures k in Group(lines) ==> Group(lines)[k] == Stream(LabelsOf(lines, k).value, EntriesOf(lines, k))
    ensures k !in Group(lines) ==> EntriesOf(lines, k) == []
  {
    if lines != [] {
      GroupExact(lines[..|lines| - 1], k);
    }
  }

  lemma {:induction false} LabelsOfExact(lines: seq<Option<Line>>, k: string)
    ensures LabelsOf(lines, k).Some? <==> exists line | line in lines :: HasKey(line, k)
    ensures LabelsOf(lines, k).Some? ==> Some(LabelsOf(lines, k).value) in FoundLabels(lines, k)
  {
    if lines != [] {
      var n := |lines| - 1;
      LabelsOfExact(lines[..n], k);
      assert lines == lines[..n] + [lines[n]];
    }
  }

  /** The labels of every line with a key. */
  function FoundLabels(lines: seq<Option<Line>>, k: string): set<Option<Labels>> {
    set line | line in lines && HasKey(line, k) :: Some(line.value.labels)
  }

  /** Every line that parsed lands under its own labels. */
  ghost predicate Faithful(lines: seq<Option<Line>>) {
    forall line | line in lines && line.Some? ::
      KeyOf(line.value.labels) in Group(lines) && Group(lines)[KeyOf(line.value.labels)].labels == line.value.labels
  }

  /** No two lines share a key under different labels. */
  ghost predicate KeysApart(lines: seq<Option<Line>>) {
    forall a, b | a in lines && b in lines && a.Some? && b.Some? && KeyOf(a.value.labels) == KeyOf(b.value.labels) ::
      a.value.labels == b.value.labels
  }

  /** Lines are shown under their own labels exactly when no two different label sets join to one key. */
  lemma FaithfulExactly(lines: seq<Option<Line>>)
    ensures Faithful(lines) <==> KeysApart(lines)
  {
    forall line | line in lines && line.Some? ensures HasKey(line, KeyOf(line.value.labels)) {
    }
    forall line | line in lines && line.Some?
      ensures var k := KeyOf(line.value.labels);
        k in Group(lines) && Some(Group(lines)[k].labels) in FoundLabels(lines, k)
    {
      GroupExact(lines, KeyOf(line.value.labels));
      LabelsOfExact(lines, KeyOf(line.value.labels));
    }
  }

  /** Names without slashes, as Kubernetes has them, never join to one key. */
  lemma SlashFreeApart(a: Labels, b: Labels)
    requires '/' !in a.namespace && '/' !in a.pod && '/' !in b.namespace && '/' !in b.pod
    ensures KeyOf(a) == KeyOf(b) <==> a == b
  {
    KeySplits(a);
    KeySplits(b);
  }

  lemma KeySplits(l: Labels)
    requires '/' !in l.namespace && '/' !in l.pod
    ensures SplitOnce(KeyOf(l), '/') == Some((l.namespace, l.pod + "/" + l.container))
    ensures SplitOnce(l.pod + "/" + l.container, '/') == Some((l.pod, l.container))
  {
    assert KeyOf(l) == l.namespace + "/" + (l.pod + "/" + l.container);
    SplitOnceAt(l.namespace, '/', l.pod + "/" + l.container);
    SplitOnceAt(l.pod, '/', l.container);
  }

  /** Names with slashes can collide, and the second line then shows under the first line's labels. */
  lemma SlashesCollide(entry: Entry)
    ensures var lines := [Some(Line(Labels("a/b", "c", "d"), entry)), Some(Line(Labels("a", "b/c", "d"), entry))];
      !Faithful(lines)
  {
    var x, y := Labels("a/b", "c", "d"), Labels("a", "b/c", "d");
    var lines := [Some(Line(x, entry)), Some(Line(y, entry))];
    assert KeyOf(x) == "a/b/c/d" == KeyOf(y);
    assert lines[0] in lines && lines[1] in lines && x.pod != y.pod;
    FaithfulExactly(lines);
  }

  // --------------------------------------------------------------- conservation

  function EntryCount(keys: seq<string>, lines: seq<Option<Line>>): nat {
    if keys == [] then 0 else EntryCount(keys[..|keys| - 1], lines) + |EntriesOf(lines, keys[|keys| - 1])|
  }

  function StreamOrder(streams: map<string, Stream>): (r: seq<string>)
    ensures Sorted(r, Before) && forall k :: k in r <==> k in streams
  {
    BeforeIsTotal();
    Ascending(streams.Keys, Before)
  }

  /** The entries of all streams together. */
  function TotalEntries(keys: seq<string>, streams: map<string, Stream>): nat
    requires forall k | k in keys :: k in streams
  {
    if keys == [] then 0
    else TotalEntries(keys[..|keys| - 1], streams) + |streams[keys[|keys| - 1]].entries|
  }

  lemma {:induction false} LineCountedOnce(keys: seq<string>, lines: seq<Option<Line>>)
    requires lines != [] && Distinct(keys)
    ensures var n := |lines| - 1;
      EntryCount(keys, lines) == EntryCount(keys, lines[..n]) +
        if lines[n].Some? && KeyOf(lines[n].value.labels) in keys then 1 else 0
  {
    if keys != [] {
      var m := |keys| - 1;
      LineCountedOnce(keys[..m], lines);
      assert keys == keys[..m] + [keys[m]];
    }
  }

  lemma {:induction false} NoLinesNoEntries(keys: seq<string>)
    ensures EntryCount(keys, []) == 0
  {
    if keys != [] {
      NoLinesNoEntries(keys[..|keys| - 1]);
    }
  }

  lemma {:induction false} CountIsParsed(keys: seq<string>, lines: seq<Option<Line>>)
    requires Distinct(keys) && forall line | line in lines && line.Some? :: KeyOf(line.value.labels) in keys
    ensures EntryCount(keys, lines) == Parsed(lines)
  {
    if lines == [] {
      NoLinesNoEntries(keys);
    } else {
      var n := |lines| - 1;
      assert lines == lines[..n] + [lines[n]];
      CountIsParsed(keys, lines[..n]);
      LineCountedOnce(keys, lines);
    }
  }

  lemma {:induction false} TotalIsCount(keys: seq<string>, lines: seq<Option<Line>>)
    requires forall k | k in keys :: k in Group(lines)
    ensures TotalEntries(keys, Group(lines)) == EntryCount(keys, lines)
  {
    if keys != [] {
      var m := |keys| - 1;
      TotalIsCount(keys[..m], lines);
      GroupExact(lines, keys[m]);
    }
  }

  /** The reported total is the number of entries over all streams: no line is lost or shown twice. */
  lemma TotalConserved(lines: seq<Option<Line>>)
    ensures var streams := Group(lines); TotalEntries(StreamOrder(streams), streams) == Parsed(lines)
  {
    var keys := StreamOrder(Group(lines));
    BeforeIsTotal();
    assert forall i, j | 0 <= i < j < |keys| :: Before(keys[i], keys[j]);
    forall line | line in lines && line.Some? ensures KeyOf(line.value.labels) in keys {
      GroupExact(lines, KeyOf(line.value.labels));
      LabelsOfExact(lines, KeyOf(line.value.labels));
      assert HasKey(line, KeyOf(line.value.labels));
    }
    CountIsParsed(keys, lines);
    TotalIsCount(keys, lines);
  }
}
