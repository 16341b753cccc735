/** The results file of the consumer: one line per recorded image, written in
    the map's iteration order, and what a reader of the file can recover from it. */
module ReportFile {
  import opened Sqs

  /** The line written for one entry: the key, a colon and a space, the text, a newline. */
  function OutputLine(key: string, value: string): (line: string)
    ensures |line| == |key| + |value| + 3 && line[|line| - 1] == '\n'
  {
    key + ": " + value + "\n"
  }

  /** The file contents when the entries are visited in the order `order`. */
  function Render(order: seq<string>, outputs: map<string, string>): (text: string)
    requires forall i :: 0 <= i < |order| ==> order[i] in outputs
    ensures text == "" <==> order == []
    ensures |text| >= 3 * |order|
  {
    if order == [] then "" else OutputLine(order[0], outputs[order[0]]) + Render(order[1..], outputs)
  }

  /** `order` visits every key of `outputs` exactly once, as an iteration over
      entrySet does (in an order the map chooses). */
  ghost predicate IsIterationOrder(order: seq<string>, outputs: map<string, string>)
  {
    && (forall i, j :: 0 <= i < j < |order| ==> order[i] != order[j])
    && (forall k :: k in outputs <==> k in order)
  }

  /** The order entrySet hands the entries out in: every key once, picked by the map. */
  method EntryOrder(outputs: map<string, string>) returns (order: seq<string>)
    ensures IsIterationOrder(order, outputs)
  {
    order := [];
    var rest := outputs.Keys;
    while rest != {}
      invariant forall k :: k in outputs <==> k in order || k in rest
      invariant forall k :: k in order ==> k !in rest
      invariant forall i, j :: 0 <= i < j < |order| ==> order[i] != order[j]
      decreases |rest|
    {
      var k :| k in rest;
      order := order + [k];
      rest := rest - {k};
    }
  }

  /** The writing loop: one line per entry, in iteration order. */
  method WriteResults(outputs: map<string, string>, order: seq<string>) returns (contents: string)
    requires IsIterationOrder(order, outputs)
    ensures contents == Render(order, outputs)
  {
    contents := "";
    for i := 0 to |order|
      invariant contents == Render(order[..i], outputs)
    {
      assert order[..i + 1] == order[..i] + [order[i]];
      RenderAppend(order[..i], [order[i]], outputs);
      contents := contents + OutputLine(order[i], outputs[order[i]]);
    }
    assert order[..|order|] == order;
  }

  lemma {:induction false} RenderAppend(a: seq<string>, b: seq<string>, outputs: map<string, string>)
    requires forall i :: 0 <= i < |a| ==> a[i] in outputs
    requires forall i :: 0 <= i < |b| ==> b[i] in outputs
    ensures Render(a + b, outputs) == Render(a, outputs) + Render(b, outputs)
  {
    if a == [] {
      assert a + b == b;
    } else {
      assert (a + b)[0] == a[0] && (a + b)[1..] == a[1..] + b;
      RenderAppend(a[1..], b, outputs);
    }
  }

  /** The position of the first `c` in `s`, or |s|. */
  function IndexOf(s: string, c: char): (i: nat)
    ensures i <= |s|
    ensures forall j :: 0 <= j < i ==> s[j] != c
    ensures i < |s| ==> s[i] == c
  {
    if s == [] then 0 else if s[0] == c then 0 else 1 + IndexOf(s[1..], c)
  }

  /** Reading one line back: the key is what precedes the first colon, the text
      what follows the colon and the space after it. */
  function ParseLine(line: string): Option<(string, string)>
  {
    var c := IndexOf(line, ':');
    if c + 1 < |line| && line[c + 1] == ' ' then Some((line[..c], line[c + 2..])) else None
  }

  /** Reading the whole file back into a map; None when a line is malformed or
      the last line is not terminated. */
  function ParseReport(text: string): Option<map<string, string>>
    decreases |text|
  {
    if text == [] then Some(map[])
    else
      var nl := IndexOf(text, '\n');
      if nl == |text| then None
      else
        match ParseLine(text[..nl])
        case None => None
        case Some(entry) =>
          match ParseReport(text[nl + 1..])
          case None => None
          case Some(m) => Some(m[entry.0 := entry.1])
  }

  /** A line reads back as the entry it was written from, as long as the key holds
      no colon. */
  lemma ParseLineRoundTrip(key: string, value: string)
    requires ':' !in key
    ensures ParseLine(key + ": " + value) == Some((key, value))
  {
    var line := key + ": " + value;
    assert forall j :: 0 <= j < |key| ==> line[j] == key[j];
    assert line[|key|] == ':' && line[|key| + 1] == ' ';
    assert IndexOf(line, ':') == |key|;
    assert line[..|key|] == key;
    assert line[|key| + 2..] == value;
  }

  /** The first newline of a written line is its terminator. */
  lemma OutputLineSplit(key: string, value: string, rest: string)
    requires '\n' !in key && '\n' !in value
    ensures var text := OutputLine(key, value) + rest;
            var nl := IndexOf(text, '\n');
            && nl == |key| + 2 + |value|
            && text[..nl] == key + ": " + value
            && text[nl + 1..] == rest
  {
    var line := key + ": " + value;
    var text := OutputLine(key, value) + rest;
    assert text == line + "\n" + rest;
    assert forall j :: 0 <= j < |line| ==> text[j] == line[j];
    assert forall j :: 0 <= j < |line| ==> line[j] != '\n' by {
      forall j | 0 <= j < |line|
        ensures line[j] != '\n'
      {
        if j < |key| {
          assert line[j] == key[j];
        } else if j >= |key| + 2 {
          assert line[j] == value[j - |key| - 2];
        }
      }
    }
    assert text[|line|] == '\n';
    assert text[..|line|] == line;
    assert text[|line| + 1..] == rest;
  }

  /** Reading a written line and then the rest of a file adds the line's entry to
      what the rest reads as. */
  lemma ParseStep(key: string, value: string, rest: string)
    requires ':' !in key && '\n' !in key && '\n' !in value
    ensures ParseReport(OutputLine(key, value) + rest) ==
            match ParseReport(rest)
            case None => None
            case Some(m) => Some(m[key := value])
  {
    OutputLineSplit(key, value, rest);
    ParseLineRoundTrip(key, value);
  }

  lemma MapOfCons(order: seq<string>, outputs: map<string, string>)
    requires order != []
    requires forall i :: 0 <= i < |order| ==> order[i] in outputs
    ensures (map k | k in order :: outputs[k]) ==
            (map k | k in order[1..] :: outputs[k])[order[0] := outputs[order[0]]]
  {
    assert forall k :: k in order <==> k == order[0] || k in order[1..] by {
      assert order == [order[0]] + order[1..];
    }
  }

  /** The file reads back as the map it was written from, whatever the iteration
      order, when no key holds a colon or a newline and no text holds a newline. */
  lemma {:induction false} ReadBack(order: seq<string>, outputs: map<string, string>)
    requires forall i :: 0 <= i < |order| ==> order[i] in outputs
    requires forall k :: k in outputs ==> ':' !in k && '\n' !in k && '\n' !in outputs[k]
    ensures ParseReport(Render(order, outputs)) == Some(map k | k in order :: outputs[k])
  {
    if order != [] {
      ReadBack(order[1..], outputs);
      ParseStep(order[0], outputs[order[0]], Render(order[1..], outputs));
      MapOfCons(order, outputs);
    }
  }

  /** Written in any iteration order, the file reads back as `outputs` itself. */
  lemma FileRecoversOutputs(order: seq<string>, outputs: map<string, string>)
    requires IsIterationOrder(order, outputs)
    requires forall k :: k in outputs ==> ':' !in k && '\n' !in k && '\n' !in outputs[k]
    ensures ParseReport(Render(order, outputs)) == Some(outputs)
  {
    ReadBack(order, outputs);
    assert (map k | k in order :: outputs[k]) == outputs;
  }

  /** One line per entry: the file holds as many newlines as the map has entries. */
  lemma {:induction false} LinePerEntry(order: seq<string>, outputs: map<string, string>)
    requires forall i :: 0 <= i < |order| ==> order[i] in outputs
    requires forall k :: k in outputs ==> '\n' !in k && '\n' !in outputs[k]
    ensures multiset(Render(order, outputs))['\n'] == |order|
  {
    if order != [] {
      var key, value := order[0], outputs[order[0]];
      LinePerEntry(order[1..], outputs);
      var line, rest := OutputLine(key, value), Render(order[1..], outputs);
      assert multiset(line)['\n'] == 1 by {
        assert multiset(line) == multiset(key) + multiset(": ") + multiset(value) + multiset("\n");
        assert multiset(key)['\n'] == 0 && multiset(value)['\n'] == 0;
      }
      assert multiset(line + rest) == multiset(line) + multiset(rest);
    }
  }
}
