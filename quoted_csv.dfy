/**
 * The quote-toggling field splitter that three of the scripts write out by
 * hand: a character loop that flips an "inside quotes" flag on every `"`,
 * ends a field on a `,` outside quotes, and otherwise appends the character
 * to the current field. The quote characters themselves are dropped.
 *
 * `Scan` is the loop's state after a prefix of the line, so each hand-written
 * loop is proved against it; the lemmas say what the split means.
 */
module QuotedCsv {
  import opened Strings

  /** The loop's variables: the fields pushed so far, `current`, `inQuotes`. */
  datatype ScanState = ScanState(fields: seq<string>, current: string, inQuotes: bool)

  /** One turn of the loop body on character `c`. */
  function Step(st: ScanState, c: char): ScanState {
    if c == '"' then st.(inQuotes := !st.inQuotes)
    else if c == ',' && !st.inQuotes then ScanState(st.fields + [st.current], "", st.inQuotes)
    else st.(current := st.current + [c])
  }

  /** The loop's state after reading all of `line`. */
  function Scan(line: string): ScanState
    decreases |line|
  {
    if line == [] then ScanState([], "", false)
    else Step(Scan(line[..|line| - 1]), line[|line| - 1])
  }

  /** The fields of a line: the pushed fields followed by the final `current`. */
  function SplitQuoted(line: string): (fields: seq<string>)
    ensures |fields| >= 1
  {
    var st := Scan(line);
    st.fields + [st.current]
  }

  /** `trim` applied to every field. */
  function TrimAll(xs: seq<string>): (ys: seq<string>)
    ensures |ys| == |xs|
    ensures forall i :: 0 <= i < |xs| ==> ys[i] == Trim(xs[i])
  {
    seq(|xs|, i requires 0 <= i < |xs| => Trim(xs[i]))
  }

  /** The number of commas that are preceded by an even number of `"`. */
  function UnquotedCommas(line: string): nat
    decreases |line|
  {
    if line == [] then 0
    else
      var init := line[..|line| - 1];
      UnquotedCommas(init) + (if line[|line| - 1] == ',' && Count(init, '"') % 2 == 0 then 1 else 0)
  }

  lemma {:induction false} CountSnoc(s: string, c: char, x: char)
    ensures Count(s + [c], x) == Count(s, x) + (if c == x then 1 else 0)
  {
    if s != [] {
      assert (s + [c])[1..] == s[1..] + [c];
      CountSnoc(s[1..], c, x);
    }
  }

  lemma {:induction false} JoinSnoc(parts: seq<string>, x: string, sep: char)
    requires |parts| >= 1
    ensures Join(parts + [x], sep) == Join(parts, sep) + [sep] + x
  {
    if |parts| > 1 {
      assert (parts + [x])[1..] == parts[1..] + [x];
      JoinSnoc(parts[1..], x, sep);
    }
  }

  /** Extending the last field by `t` extends the joined text by `t`. */
  lemma JoinExtendLast(fields: seq<string>, cur: string, t: string, sep: char)
    ensures Join(fields + [cur + t], sep) == Join(fields + [cur], sep) + t
  {
    if fields != [] {
      JoinSnoc(fields, cur + t, sep);
      JoinSnoc(fields, cur, sep);
    } else {
      assert [cur + t] == fields + [cur + t];
    }
  }

  /** The last character of a non-empty line is a step of the scan. */
  lemma ScanLast(line: string)
    requires line != []
    ensures line == line[..|line| - 1] + [line[|line| - 1]]
    ensures Scan(line) == Step(Scan(line[..|line| - 1]), line[|line| - 1])
  {
    InitLast(line);
  }

  /** A non-empty sequence is its front followed by its last element. */
  lemma InitLast<T>(s: seq<T>)
    requires s != []
    ensures s == s[..|s| - 1] + [s[|s| - 1]]
  {
  }

  /** The quote flag after a prefix is the parity of the quotes read. */
  lemma {:induction false} ScanQuoteParity(line: string)
    ensures Scan(line).inQuotes <==> Count(line, '"') % 2 == 1
    decreases |line|
  {
    if line != [] {
      ScanLast(line);
      ScanQuoteParity(line[..|line| - 1]);
      CountSnoc(line[..|line| - 1], line[|line| - 1], '"');
    }
  }

  /** Joining the pushed fields and `current` with `,` gives the prefix read, without its quotes. */
  lemma {:induction false} ScanJoin(line: string)
    ensures Join(Scan(line).fields + [Scan(line).current], ',') == RemoveChar(line, '"')
    decreases |line|
  {
    if line != [] {
      var init := line[..|line| - 1];
      var c := line[|line| - 1];
      ScanLast(line);
      ScanJoin(init);
      RemoveCharAppend(init, [c], '"');
      var st := Scan(init);
      if c == '"' {
        assert RemoveChar([c], '"') == [];
      } else if c == ',' && !st.inQuotes {
        assert RemoveChar([c], '"') == [','];
        JoinSnoc(st.fields + [st.current], "", ',');
      } else {
        assert RemoveChar([c], '"') == [c];
        JoinExtendLast(st.fields, st.current, [c], ',');
      }
    }
  }

  /** One field is pushed per comma outside quotes. */
  lemma {:induction false} ScanFieldCount(line: string)
    ensures |Scan(line).fields| == UnquotedCommas(line)
    decreases |line|
  {
    if line != [] {
      ScanLast(line);
      ScanFieldCount(line[..|line| - 1]);
      ScanQuoteParity(line[..|line| - 1]);
    }
  }

  /** No quote character is ever kept. */
  lemma {:induction false} ScanDropsQuotes(line: string)
    ensures '"' !in Scan(line).current
    ensures forall i :: 0 <= i < |Scan(line).fields| ==> '"' !in Scan(line).fields[i]
    decreases |line|
  {
    if line != [] {
      ScanLast(line);
      ScanDropsQuotes(line[..|line| - 1]);
    }
  }

  /** Joining the fields with `,` gives back the line with every `"` removed. */
  lemma SplitQuotedJoin(line: string)
    ensures Join(SplitQuoted(line), ',') == RemoveChar(line, '"')
  {
    ScanJoin(line);
  }

  /** There is one field more than there are commas outside quotes. */
  lemma SplitQuotedCount(line: string)
    ensures |SplitQuoted(line)| == UnquotedCommas(line) + 1
  {
    ScanFieldCount(line);
  }

  /** No field holds a double quote. */
  lemma SplitQuotedNoQuotes(line: string)
    ensures forall i :: 0 <= i < |SplitQuoted(line)| ==> '"' !in SplitQuoted(line)[i]
  {
    ScanDropsQuotes(line);
  }

  /**
   * The split with every field trimmed, as the row loop of the phase-1 CSV
   * reader and the category survey write it: `values.push(current.trim())`.
   */
  method SplitTrimmed(line: string) returns (values: seq<string>)
    ensures values == TrimAll(SplitQuoted(line))
  {
    values := [];
    var current := "";
    var inQuotes := false;
    for i := 0 to |line|
      invariant values == TrimAll(Scan(line[..i]).fields)
      invariant current == Scan(line[..i]).current
      invariant inQuotes == Scan(line[..i]).inQuotes
    {
      assert line[..i + 1][..i] == line[..i];
      var ch := line[i];
      if ch == '"' {
        inQuotes := !inQuotes;
      } else if ch == ',' && !inQuotes {
        values := values + [Trim(current)];
        current := "";
      } else {
        current := current + [ch];
      }
    }
    assert line[..|line|] == line;
    values := values + [Trim(current)];
  }
}
