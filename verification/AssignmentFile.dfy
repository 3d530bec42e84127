/**
 * The cluster_assignments file: one line of words for each partition.
 *
 * A line is the topic, the partition number, the leader, and the replicas and
 * the in-sync set, each as its length and its members. Formatted input does not
 * see lines: it reads words between white space, so a topic that is no word is
 * read as something else. The program writes the file with operator<< and reads
 * it with operator>>.
 */
module AssignmentFile {
  import opened Types
  import opened Election
  import opened Strings
  import opened Assignments

  // ---- Words, as formatted input reads them ----

  predicate IsSpace(c: char) {
    c == ' ' || c == '\n' || c == '\t' || c == '\r' || c == '\U{000B}' || c == '\U{000C}'
  }

  /** Not empty and without white space. */
  predicate IsWord(s: string) {
    s != [] && forall c :: c in s ==> !IsSpace(c)
  }

  function SkipSpace(s: string): (t: string)
    ensures |t| <= |s| && (t != [] ==> !IsSpace(t[0]))
  {
    if s == [] || !IsSpace(s[0]) then s else SkipSpace(s[1..])
  }

  function WordLength(s: string): (n: nat)
    ensures n <= |s| && (s != [] && !IsSpace(s[0]) ==> 0 < n)
  {
    if s == [] || IsSpace(s[0]) then 0 else 1 + WordLength(s[1..])
  }

  function Words(s: string): seq<string>
    decreases |s|
  {
    var t := SkipSpace(s);
    if t == [] then [] else [t[..WordLength(t)]] + Words(t[WordLength(t)..])
  }

  /** Words written with a blank between two of them. */
  function Spaced(words: seq<string>): string
    requires words != []
  {
    if |words| == 1 then words[0] else Spaced(words[..|words| - 1]) + " " + words[|words| - 1]
  }

  lemma {:induction false} WordEnds(w: string, sep: char, rest: string)
    requires IsSpace(sep) && forall c :: c in w ==> !IsSpace(c)
    ensures WordLength(w + [sep] + rest) == |w|
  {
    var s := w + [sep] + rest;
    if w == [] {
      assert s[0] == sep;
    } else {
      assert s[0] == w[0] && w[0] in w;
      assert s[1..] == w[1..] + [sep] + rest;
      WordEnds(w[1..], sep, rest);
    }
  }

  lemma OneWord(w: string, sep: char, rest: string)
    requires IsWord(w) && IsSpace(sep)
    ensures Words(w + [sep] + rest) == [w] + Words(rest)
  {
    var s := w + [sep] + rest;
    assert s[0] == w[0] && w[0] in w;
    WordEnds(w, sep, rest);
    assert s[..|w|] == w && s[|w|..] == [sep] + rest;
    assert ([sep] + rest)[1..] == rest;
    assert SkipSpace([sep] + rest) == SkipSpace(rest);
    assert Words([sep] + rest) == Words(rest);
  }

  lemma SpacedTail(front: seq<string>, last: string, sep: char, rest: string)
    requires front != []
    ensures Spaced(front + [last]) + [sep] + rest == Spaced(front) + [' '] + (last + [sep] + rest)
  {
    assert (front + [last])[..|front|] == front;
  }

  /** Words that were written spaced are read back as they were. */
  lemma {:induction false} SpacedWords(words: seq<string>, sep: char, rest: string)
    requires words != [] && IsSpace(sep) && forall w :: w in words ==> IsWord(w)
    ensures Words(Spaced(words) + [sep] + rest) == words + Words(rest)
  {
    hide Words, IsWord;
    if |words| == 1 {
      OneWord(words[0], sep, rest);
      assert words == [words[0]];
    } else {
      var front, last := words[..|words| - 1], words[|words| - 1];
      assert words == front + [last];
      var tail := last + [sep] + rest;
      SpacedWords(front, ' ', tail);
      OneWord(last, sep, rest);
      SpacedTail(front, last, sep, rest);
      assert words[..|words| - 1] == front;
      assert front + ([last] + Words(rest)) == words + Words(rest);
    }
  }

  /** Reading words never gives anything but words. */
  lemma {:induction false} WordsAreWords(s: string)
    ensures forall w :: w in Words(s) ==> IsWord(w)
    decreases |s|
  {
    var t := SkipSpace(s);
    if t != [] {
      NoSpaceInside(t);
      WordsAreWords(t[WordLength(t)..]);
    }
  }

  lemma {:induction false} NoSpaceInside(s: string)
    ensures forall c :: c in s[..WordLength(s)] ==> !IsSpace(c)
  {
    if s != [] && !IsSpace(s[0]) {
      NoSpaceInside(s[1..]);
      assert s[..WordLength(s)] == [s[0]] + s[1..][..WordLength(s[1..])];
    }
  }

  // ---- Numbers ----

  /** A word that is a number of at most 32 bits. */
  function Number(w: string): Option<u32> {
    if w != [] && (forall c :: c in w ==> IsDigit(c)) && DecimalValue(w) < TWO_32 then Some(DecimalValue(w)) else None
  }

  lemma NumberOfDecimal(n: nat)
    ensures IsWord(Decimal(n)) && Number(Decimal(n)) == if n < TWO_32 then Some(n) else None
  {
    DecimalRoundTrip(n);
    assert forall c :: IsDigit(c) ==> !IsSpace(c);
  }

  function Decimals(ids: seq<BrokerId>): (ws: seq<string>)
    ensures |ws| == |ids|
  {
    seq(|ids|, i requires 0 <= i < |ids| => Decimal(ids[i]))
  }

  lemma DecimalsFirst(ids: seq<BrokerId>)
    requires ids != []
    ensures Decimals(ids) == [Decimal(ids[0])] + Decimals(ids[1..])
  {
    hide Decimal;
  }

  /** A list as its length and its members. */
  function ListWords(ids: seq<BrokerId>): (ws: seq<string>)
    ensures |ws| == 1 + |ids|
  {
    [Decimal(|ids|)] + Decimals(ids)
  }

  datatype Taken = Taken(ids: seq<BrokerId>, rest: seq<string>)

  /** The first n words as numbers. */
  function TakeNumbers(ws: seq<string>, n: nat): Option<Taken>
    decreases n
  {
    if n == 0 then Some(Taken([], ws))
    else if ws == [] || Number(ws[0]) == None then None
    else
      match TakeNumbers(ws[1..], n - 1)
      case None => None
      case Some(t) => Some(Taken([Number(ws[0]).value] + t.ids, t.rest))
  }

  function TakeList(ws: seq<string>): Option<Taken> {
    if ws == [] || Number(ws[0]) == None then None else TakeNumbers(ws[1..], Number(ws[0]).value)
  }

  lemma {:induction false} TakeNumbersShorter(ws: seq<string>, n: nat)
    ensures TakeNumbers(ws, n).Some? ==>
              |TakeNumbers(ws, n).value.rest| + n == |ws| && |TakeNumbers(ws, n).value.ids| == n
              && TakeNumbers(ws, n).value.rest == ws[n..]
  {
    if n > 0 && ws != [] {
      TakeNumbersShorter(ws[1..], n - 1);
    }
  }

  lemma {:induction false} TakesNumbers(ids: seq<BrokerId>, rest: seq<string>)
    ensures TakeNumbers(Decimals(ids) + rest, |ids|) == Some(Taken(ids, rest))
  {
    hide Number, Decimal, Decimals;
    if ids == [] {
      assert Decimals(ids) + rest == rest;
    } else {
      var all := Decimals(ids) + rest;
      TakesNumbers(ids[1..], rest);
      NumberOfDecimal(ids[0]);
      DecimalsFirst(ids);
      assert all[0] == Decimal(ids[0]) && all[1..] == Decimals(ids[1..]) + rest;
      assert ids == [ids[0]] + ids[1..];
    }
  }

  lemma TakesList(ids: seq<BrokerId>, rest: seq<string>)
    requires |ids| < TWO_32
    ensures TakeList(ListWords(ids) + rest) == Some(Taken(ids, rest))
  {
    hide TakeNumbers, Number, Decimal, Decimals;
    var all := ListWords(ids) + rest;
    assert all[0] == Decimal(|ids|) && all[1..] == Decimals(ids) + rest;
    NumberOfDecimal(|ids|);
    TakesNumbers(ids, rest);
  }

  // ---- Lines and files ----

  function LineWords(e: Entry): (ws: seq<string>)
    ensures |ws| >= 5
  {
    [e.key.topic, Decimal(e.key.partition), Decimal(e.pa.leader)] + ListWords(e.pa.replicas) + ListWords(e.pa.isr)
  }

  /** One partition from the front of the words; None when they are malformed. */
  function TakeEntry(ws: seq<string>): Option<(Entry, seq<string>)> {
    if |ws| < 3 || Number(ws[1]) == None || Number(ws[2]) == None then None
    else
      match TakeList(ws[3..])
      case None => None
      case Some(replicas) =>
        match TakeList(replicas.rest)
        case None => None
        case Some(isr) =>
          Some((Entry(Key(ws[0], Number(ws[1]).value),
                      PartitionAssignment(Number(ws[2]).value, replicas.ids, isr.ids)), isr.rest))
  }

  /** The topic reads back as one word, and the counts fit 32 bits. */
  predicate Writable(e: Entry) {
    IsWord(e.key.topic) && |e.pa.replicas| < TWO_32 && |e.pa.isr| < TWO_32
  }

  lemma TakesEntry(e: Entry, rest: seq<string>)
    requires Writable(e)
    ensures TakeEntry(LineWords(e) + rest) == Some((e, rest))
  {
    hide TakeList, ListWords;
    var ws := LineWords(e) + rest;
    var tail := ListWords(e.pa.isr) + rest;
    assert ws[0] == e.key.topic && ws[1] == Decimal(e.key.partition) && ws[2] == Decimal(e.pa.leader);
    assert ws[3..] == ListWords(e.pa.replicas) + tail;
    NumberOfDecimal(e.key.partition);
    NumberOfDecimal(e.pa.leader);
    TakesList(e.pa.replicas, tail);
    TakesList(e.pa.isr, rest);
  }

  lemma TakenListBounds(ws: seq<string>)
    ensures TakeList(ws).Some? ==>
              && |TakeList(ws).value.rest| < |ws| && |TakeList(ws).value.ids| < TWO_32
              && forall w :: w in TakeList(ws).value.rest ==> w in ws
  {
    if ws != [] && Number(ws[0]).Some? {
      TakeNumbersShorter(ws[1..], Number(ws[0]).value);
    }
  }

  /** A line that was read is writable, and used up words. */
  lemma TakenEntryBounds(ws: seq<string>)
    ensures TakeEntry(ws).Some? ==>
              var (e, rest) := TakeEntry(ws).value;
              && |rest| < |ws| && e.key.topic == ws[0] && |e.pa.replicas| < TWO_32 && |e.pa.isr| < TWO_32
              && forall w :: w in rest ==> w in ws
  {
    hide TakeList;
    if |ws| >= 3 {
      TakenListBounds(ws[3..]);
      var r := TakeList(ws[3..]);
      if r.Some? {
        TakenListBounds(r.value.rest);
      }
    }
  }

  /** All lines, each added to the table; later ones win. */
  function LoadWords(ws: seq<string>, t: Table): Option<Table>
    decreases |ws|
  {
    if ws == [] then Some(t)
    else
      TakenEntryBounds(ws);
      match TakeEntry(ws)
      case None => None
      case Some((e, rest)) => LoadWords(rest, t[e.key := e.pa])
  }

  /** The table a file holds; None for a malformed file. */
  function LoadFile(text: string): Option<Table> {
    LoadWords(Words(text), map[])
  }

  /** A list on a line: a blank and a number for each member. */
  function Listed(ids: seq<BrokerId>): string {
    if ids == [] then "" else Listed(ids[..|ids| - 1]) + " " + Decimal(ids[|ids| - 1])
  }

  lemma DecimalsLast(ids: seq<BrokerId>)
    requires ids != []
    ensures Decimals(ids) == Decimals(ids[..|ids| - 1]) + [Decimal(ids[|ids| - 1])]
  {
    hide Decimal;
  }

  lemma {:induction false} SpacedList(words: seq<string>, ids: seq<BrokerId>)
    requires words != []
    ensures Spaced(words + Decimals(ids)) == Spaced(words) + Listed(ids)
  {
    if ids == [] {
      assert words + Decimals(ids) == words;
    } else {
      hide Spaced, Decimals, Decimal;
      var n := |ids| - 1;
      SpacedList(words, ids[..n]);
      DecimalsLast(ids);
      assert words + Decimals(ids) == words + Decimals(ids[..n]) + [Decimal(ids[n])];
      SpacedSnoc(words + Decimals(ids[..n]), Decimal(ids[n]));
    }
  }

  /** The line of a partition as it stands in the file. */
  lemma LineLayout(e: Entry)
    ensures Spaced(LineWords(e))
         == e.key.topic + " " + Decimal(e.key.partition) + " " + Decimal(e.pa.leader)
            + " " + Decimal(|e.pa.replicas|) + Listed(e.pa.replicas) + " " + Decimal(|e.pa.isr|) + Listed(e.pa.isr)
  {
    hide Decimal, Decimals, Listed;
    var some := [e.key.topic, Decimal(e.key.partition), Decimal(e.pa.leader), Decimal(|e.pa.replicas|)];
    var more := some + Decimals(e.pa.replicas) + [Decimal(|e.pa.isr|)];
    SpacedFour(some);
    SpacedList(some, e.pa.replicas);
    assert more[..|more| - 1] == some + Decimals(e.pa.replicas);
    SpacedList(more, e.pa.isr);
    assert LineWords(e) == more + Decimals(e.pa.isr);
  }

  lemma SpacedFour(ws: seq<string>)
    requires |ws| == 4
    ensures Spaced(ws) == ws[0] + " " + ws[1] + " " + ws[2] + " " + ws[3]
  {
    assert ws[..3][..2] == ws[..2] && ws[..2][..1] == ws[..1];
    assert Spaced(ws[..1]) == ws[0] && Spaced(ws[..2]) == ws[0] + " " + ws[1];
  }

  /** The lines for keys in this order. */
  function FileText(t: Table, keys: seq<Key>): string
    requires forall k :: k in keys ==> k in t
  {
    if keys == [] then []
    else
      var last := keys[|keys| - 1];
      FileText(t, keys[..|keys| - 1]) + Spaced(LineWords(Entry(last, t[last]))) + "\n"
  }

  lemma FileTextSnoc(t: Table, keys: seq<Key>, i: nat)
    requires i < |keys| && forall k :: k in keys ==> k in t
    ensures FileText(t, keys[..i + 1])
         == FileText(t, keys[..i]) + (Spaced(LineWords(Entry(keys[i], t[keys[i]]))) + "\n")
  {
    hide Spaced, LineWords;
    assert keys[..i + 1][..i] == keys[..i];
  }

  /** The file of a table: its lines in key order. */
  function FileOf(t: Table): string {
    FileText(t, KeysInOrder(t))
  }

  predicate TableWritable(t: Table) {
    forall k <- t :: Writable(Entry(k, t[k]))
  }

  lemma LineIsWords(e: Entry)
    requires IsWord(e.key.topic)
    ensures forall w :: w in LineWords(e) ==> IsWord(w)
  {
    NumberOfDecimal(e.key.partition);
    NumberOfDecimal(e.pa.leader);
    ListIsWords(e.pa.replicas);
    ListIsWords(e.pa.isr);
  }

  lemma ListIsWords(ids: seq<BrokerId>)
    ensures forall w :: w in ListWords(ids) ==> IsWord(w)
  {
    NumberOfDecimal(|ids|);
    forall i | 0 <= i < |ids| ensures IsWord(Decimal(ids[i])) {
      NumberOfDecimal(ids[i]);
    }
  }

  /** The words of the lines, from some keys on. */
  function FileWords(t: Table, keys: seq<Key>): seq<string>
    requires forall k :: k in keys ==> k in t
  {
    if keys == [] then []
    else FileWords(t, keys[..|keys| - 1]) + LineWords(Entry(keys[|keys| - 1], t[keys[|keys| - 1]]))
  }

  lemma {:induction false} WordsOfFile(t: Table, keys: seq<Key>, rest: string)
    requires (forall k :: k in keys ==> k in t) && TableWritable(t)
    ensures Words(FileText(t, keys) + rest) == FileWords(t, keys) + Words(rest)
  {
    hide LineWords, Words;
    if keys == [] {
      assert [] + rest == rest;
    } else {
      var front, last := keys[..|keys| - 1], keys[|keys| - 1];
      var e := Entry(last, t[last]);
      assert last in keys && Writable(e);
      var line := Spaced(LineWords(e)) + ['\n'] + rest;
      LineIsWords(e);
      SpacedWords(LineWords(e), '\n', rest);
      assert FileText(t, keys) + rest == FileText(t, front) + line;
      WordsOfFile(t, front, line);
      assert FileWords(t, front) + (LineWords(e) + Words(rest)) == FileWords(t, keys) + Words(rest);
    }
  }

  /** The part of the table on these keys. */
  function OnKeys(t: Table, keys: seq<Key>): Table {
    map k | k in t && k in keys :: t[k]
  }

  lemma {:induction false} LoadsWords(t: Table, keys: seq<Key>, rest: seq<string>)
    requires (forall k :: k in keys ==> k in t) && TableWritable(t)
    ensures LoadWords(FileWords(t, keys) + rest, map[]) == LoadWords(rest, OnKeys(t, keys))
  {
    hide LineWords, TakeEntry;
    if keys == [] {
      assert [] + rest == rest;
      assert OnKeys(t, keys) == map[];
    } else {
      var front, last := keys[..|keys| - 1], keys[|keys| - 1];
      var e := Entry(last, t[last]);
      assert last in keys && Writable(e) && keys == front + [last];
      var ws := LineWords(e) + rest;
      assert FileWords(t, keys) + rest == FileWords(t, front) + ws;
      LoadsWords(t, front, ws);
      TakesEntry(e, rest);
      assert OnKeys(t, front)[last := t[last]] == OnKeys(t, keys);
    }
  }

  /** What a load gives is writable. */
  lemma {:induction false} LoadedIsWritable(ws: seq<string>, t: Table)
    requires TableWritable(t) && forall w :: w in ws ==> IsWord(w)
    ensures LoadWords(ws, t).Some? ==> TableWritable(LoadWords(ws, t).value)
    decreases |ws|
  {
    hide TakeEntry;
    if ws != [] && TakeEntry(ws).Some? {
      TakenEntryBounds(ws);
      var (e, rest) := TakeEntry(ws).value;
      assert ws[0] in ws;
      LoadedIsWritable(rest, t[e.key := e.pa]);
    }
  }

  /**
   * Loading what was persisted gives the same assignments exactly when every
   * topic is a non-empty word without white space and no list has 2^32 members.
   */
  lemma FileRoundTrip(t: Table)
    ensures LoadFile(FileOf(t)) == Some(t) <==> TableWritable(t)
  {
    WordsAreWords(FileOf(t));
    LoadedIsWritable(Words(FileOf(t)), map[]);
    hide Words, LoadWords, FileText, Writable;
    if TableWritable(t) {
      WritableLoads(t, KeysInOrder(t));
    }
  }

  lemma WritableLoads(t: Table, keys: seq<Key>)
    requires (forall k :: k in keys <==> k in t) && TableWritable(t)
    ensures LoadFile(FileText(t, keys)) == Some(t)
  {
    WordsOfFile(t, keys, []);
    LoadsWords(t, keys, []);
    assert Words([]) == [] && LoadWords([], t) == Some(t);
    hide Words, LoadWords, FileText, FileWords, TableWritable;
    assert FileText(t, keys) + [] == FileText(t, keys) && FileWords(t, keys) + [] == FileWords(t, keys);
    assert OnKeys(t, keys) == t;
  }

  // ---- Writing and reading the file ----

  /** The numbers of a list after its length, each with a blank before it. */
  lemma SpacedSnoc(words: seq<string>, w: string)
    requires words != []
    ensures Spaced(words + [w]) == Spaced(words) + " " + w
  {
    assert (words + [w])[..|words|] == words;
  }

  /** Continues a line that has words so far with a list. */
  method PrintList(line: string, ids: seq<BrokerId>, ghost words: seq<string>) returns (line': string)
    requires words != [] && line == Spaced(words)
    ensures line' == Spaced(words + ListWords(ids))
  {
    hide Spaced;
    ghost var all := ListWords(ids);
    SpacedSnoc(words, Decimal(|ids|));
    line' := line + " " + Decimal(|ids|);
    assert words + all[..1] == words + [Decimal(|ids|)];
    var i := 0;
    while i < |ids|
      invariant 0 <= i <= |ids| && line' == Spaced(words + all[..i + 1])
    {
      SpacedSnoc(words + all[..i + 1], Decimal(ids[i]));
      assert words + all[..i + 1] + [Decimal(ids[i])] == words + all[..i + 2];
      line' := line' + " " + Decimal(ids[i]);
      i := i + 1;
    }
    assert all[..i + 1] == all;
  }

  method PrintEntry(key: Key, pa: PartitionAssignment) returns (line: string)
    ensures line == Spaced(LineWords(Entry(key, pa))) + "\n"
  {
    hide Spaced, ListWords;
    ghost var words := [key.topic, Decimal(key.partition), Decimal(pa.leader)];
    line := key.topic + " " + Decimal(key.partition) + " " + Decimal(pa.leader);
    assert line == Spaced(words) by { ThreeWords(words); }
    line := PrintList(line, pa.replicas, words);
    line := PrintList(line, pa.isr, words + ListWords(pa.replicas));
    line := line + "\n";
  }

  lemma ThreeWords(words: seq<string>)
    requires |words| == 3
    ensures Spaced(words) == words[0] + " " + words[1] + " " + words[2]
  {
    assert words[..2][..1] == [words[0]];
    assert Spaced(words[..2]) == words[0] + " " + words[1];
  }

  lemma NoLines(t: Table)
    ensures FileText(t, []) == []
  {
  }

  /** Writes every assignment on its line, in key order. */
  method PersistAssignments(t: Table) returns (text: string)
    ensures text == FileOf(t)
  {
    hide Spaced, LineWords, FileText, KeysInOrder;
    text := [];
    var keys := KeysInOrder(t);
    assert FileText(t, keys[..0]) == [] by { NoLines(t); }
    var i := 0;
    while i < |keys|
      invariant 0 <= i <= |keys| && text == FileText(t, keys[..i])
    {
      var line := PrintEntry(keys[i], t[keys[i]]);
      FileTextSnoc(t, keys, i);
      text := text + line;
      i := i + 1;
    }
    assert keys[..i] == keys;
  }

  /** n numbers are being taken from ws: got so far, and here are the words left. */
  predicate Midway(ws: seq<string>, n: nat, got: seq<BrokerId>, here: seq<string>) {
    && |got| <= n
    && TakeNumbers(ws, n) == match TakeNumbers(here, n - |got|)
                             case None => None
                             case Some(t) => Some(Taken(got + t.ids, t.rest))
  }

  lemma MidwayStart(ws: seq<string>, n: nat)
    ensures Midway(ws, n, [], ws)
  {
    hide TakeNumbers;
    var t := TakeNumbers(ws, n);
    assert t.Some? ==> [] + t.value.ids == t.value.ids;
  }

  /** The next word is a number and is taken, or there are no n numbers. */
  lemma MidwayStep(ws: seq<string>, n: nat, got: seq<BrokerId>, here: seq<string>)
    requires Midway(ws, n, got, here) && |got| < n
    ensures if here == [] || Number(here[0]) == None then TakeNumbers(ws, n) == None
            else Midway(ws, n, got + [Number(here[0]).value], here[1..])
  {
    if here != [] && Number(here[0]).Some? {
      var id, t := Number(here[0]).value, TakeNumbers(here[1..], n - |got| - 1);
      assert t.Some? ==> got + ([id] + t.value.ids) == got + [id] + t.value.ids;
    }
  }

  lemma MidwayEnd(ws: seq<string>, got: seq<BrokerId>, here: seq<string>)
    requires Midway(ws, |got|, got, here)
    ensures TakeNumbers(ws, |got|) == Some(Taken(got, here))
  {
    assert TakeNumbers(here, 0) == Some(Taken([], here)) && got + [] == got;
  }

  /** Leading white space does not matter, and a word starts at the first other character. */
  lemma WordsAfterSpace(s: string)
    ensures Words(s) == Words(SkipSpace(s))
    ensures s != [] && !IsSpace(s[0]) ==> Words(s) == [s[..WordLength(s)]] + Words(s[WordLength(s)..])
  {
  }

  class WordReader {
    const text: string
    var pos: nat

    ghost predicate Valid()
      reads this
    {
      pos <= |text|
    }

    ghost function Rest(): string
      requires Valid()
      reads this
    {
      text[pos..]
    }

    constructor (text: string)
      ensures Valid() && Rest() == text
    {
      this.text, pos := text, 0;
    }

    method NextWord() returns (w: Option<string>)
      requires Valid()
      modifies this
      ensures Valid()
      ensures var ws := Words(old(Rest()));
              if ws == [] then w == None else w == Some(ws[0]) && Words(Rest()) == ws[1..]
    {
      ghost var before := Rest();
      SkipSpaces();
      assert Words(before) == Words(Rest()) by { WordsAfterSpace(before); WordsAfterSpace(Rest()); }
      if pos == |text| {
        return None;
      }
      var word := TakeWord();
      return Some(word);
    }

    method SkipSpaces()
      requires Valid()
      modifies this
      ensures Valid() && Rest() == SkipSpace(old(Rest()))
    {
      while pos < |text| && IsSpace(text[pos])
        invariant Valid() && SkipSpace(Rest()) == SkipSpace(old(Rest()))
      {
        assert Rest()[1..] == text[pos + 1..];
        pos := pos + 1;
      }
    }

    method TakeWord() returns (word: string)
      requires Valid() && pos < |text| && !IsSpace(text[pos])
      modifies this
      ensures Valid()
      ensures Words(old(Rest())) != [] && word == Words(old(Rest()))[0] && Words(Rest()) == Words(old(Rest()))[1..]
    {
      ghost var s := Rest();
      WordsAfterSpace(s);
      var start := pos;
      while pos < |text| && !IsSpace(text[pos])
        invariant Valid() && start <= pos
        invariant WordLength(s) == pos - start + WordLength(Rest())
      {
        assert Rest()[1..] == text[pos + 1..];
        pos := pos + 1;
      }
      assert WordLength(Rest()) == 0;
      assert s[..pos - start] == text[start..pos] && s[pos - start..] == Rest();
      word := text[start..pos];
    }

    method NextNumber() returns (n: Option<u32>)
      requires Valid()
      modifies this
      ensures Valid()
      ensures var ws := Words(old(Rest()));
              if ws == [] then n == None
              else n == Number(ws[0]) && Words(Rest()) == ws[1..]
    {
      var w := NextWord();
      n := if w == None then None else Number(w.value);
    }

    method NextList() returns (ids: Option<seq<BrokerId>>)
      requires Valid()
      modifies this
      ensures Valid()
      ensures match TakeList(Words(old(Rest())))
              case None => ids == None
              case Some(t) => ids == Some(t.ids) && Words(Rest()) == t.rest
    {
      hide Words, Number, Midway, TakeNumbers;
      var count := NextNumber();
      if count == None {
        return None;
      }
      ghost var ws := Words(Rest());
      var got: seq<BrokerId> := [];
      MidwayStart(ws, count.value);
      while |got| < count.value
        invariant Valid() && |got| <= count.value && Midway(ws, count.value, got, Words(Rest()))
        decreases count.value - |got|
      {
        ghost var here := Words(Rest());
        var id := NextNumber();
        MidwayStep(ws, count.value, got, here);
        if id == None {
          return None;
        }
        got := got + [id.value];
      }
      MidwayEnd(ws, got, Words(Rest()));
      return Some(got);
    }

    method NextEntry(topic: string, ghost ws: seq<string>) returns (e: Option<Entry>)
      requires Valid() && ws != [] && topic == ws[0] && Words(Rest()) == ws[1..]
      modifies this
      ensures Valid()
      ensures match TakeEntry(ws)
              case None => e == None
              case Some((x, rest)) => e == Some(x) && Words(Rest()) == rest
    {
      hide Words, Number, TakeList;
      var partition := NextNumber();
      if partition == None {
        return None;
      }
      var leader := NextNumber();
      if leader == None {
        return None;
      }
      assert Words(Rest()) == ws[3..];
      var replicas := NextList();
      if replicas == None {
        return None;
      }
      var isr := NextList();
      if isr == None {
        return None;
      }
      return Some(Entry(Key(topic, partition.value), PartitionAssignment(leader.value, replicas.value, isr.value)));
    }
  }

  /** Reads the file back, line by line. */
  method LoadAssignments(text: string) returns (t: Option<Table>)
    ensures t == LoadFile(text)
  {
    hide Words, TakeEntry;
    var r := new WordReader(text);
    var table: Table := map[];
    var topic := r.NextWord();
    ghost var ws := Words(text);
    while topic.Some?
      invariant r.Valid() && LoadWords(ws, table) == LoadFile(text)
      invariant if topic.Some? then ws != [] && topic.value == ws[0] && Words(r.Rest()) == ws[1..] else ws == []
      decreases |ws|
    {
      var e := r.NextEntry(topic.value, ws);
      if e == None {
        return None;
      }
      TakenEntryBounds(ws);
      table := table[e.value.key := e.value.pa];
      ws := Words(r.Rest());
      topic := r.NextWord();
    }
    return Some(table);
  }
}
