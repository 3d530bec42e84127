/**
 * The shapes nested messages are built from: fixed-width integers, strings,
 * records, lists behind a four-byte count, and one thing after another.
 */
module Wire {
  import opened Types
  import opened Codec
  import opened Records

  datatype Shape = Int(width: nat) | Str | Rec | List(item: Shape) | Both(first: Shape, second: Shape)

  datatype Val = Num(n: nat) | Bytes(bytes: seq<byte>) | Of(rec: Record) | Items(items: seq<Val>) | Two(a: Val, b: Val)

  predicate HasShape(t: Shape, v: Val)
    decreases t
  {
    match t
    case Int(_) => v.Num?
    case Str => v.Bytes?
    case Rec => v.Of?
    case List(item) => v.Items? && forall i :: 0 <= i < |v.items| ==> HasShape(item, v.items[i])
    case Both(first, second) => v.Two? && HasShape(first, v.a) && HasShape(second, v.b)
  }

  /** Every integer, length and count fits the bytes it is written to. */
  predicate InBounds(t: Shape, v: Val)
    requires HasShape(t, v)
    decreases t
  {
    match t
    case Int(width) => v.n < Pow256(width)
    case Str => |v.bytes| < TWO_16
    case Rec => Fits(v.rec)
    case List(item) => |v.items| < TWO_32 && forall i :: 0 <= i < |v.items| ==> InBounds(item, v.items[i])
    case Both(first, second) => InBounds(first, v.a) && InBounds(second, v.b)
  }

  function Put(t: Shape, v: Val): seq<byte>
    requires HasShape(t, v)
    decreases t, 0
  {
    match t
    case Int(width) => BigEndian(v.n, width)
    case Str => PutString(v.bytes)
    case Rec => Frame(v.rec)
    case List(item) => BigEndian(|v.items|, 4) + PutItems(item, v.items)
    case Both(first, second) => Put(first, v.a) + Put(second, v.b)
  }

  function PutItems(item: Shape, items: seq<Val>): seq<byte>
    requires forall i :: 0 <= i < |items| ==> HasShape(item, items[i])
    decreases item, 1, |items|
  {
    if items == [] then [] else PutItems(item, items[..|items| - 1]) + Put(item, items[|items| - 1])
  }

  /** The value at the front of s, or None when s is too short, too long counts included, or a record is damaged. */
  function Parse(t: Shape, s: seq<byte>): Option<Parsed<Val>>
    decreases t, 0
  {
    match t
    case Int(width) =>
      (match ParseInt(s, width)
       case None => None
       case Some(p) => Some(Parsed(Num(p.value), p.used)))
    case Str =>
      (match ParseString(s)
       case None => None
       case Some(p) => Some(Parsed(Bytes(p.value), p.used)))
    case Rec =>
      (match ParseRecord(s)
       case None => None
       case Some(p) => Some(Parsed(Of(p.value), p.used)))
    case List(item) =>
      (match ParseInt(s, 4)
       case None => None
       case Some(count) =>
         match ParseItems(item, s[4..], count.value)
         case None => None
         case Some(p) => Some(Parsed(Items(p.value), 4 + p.used)))
    case Both(first, second) =>
      (match Parse(first, s)
       case None => None
       case Some(p) =>
         if p.used > |s| then None else
         match Parse(second, s[p.used..])
         case None => None
         case Some(q) => Some(Parsed(Two(p.value, q.value), p.used + q.used)))
  }

  function ParseItems(item: Shape, s: seq<byte>, count: nat): Option<Parsed<seq<Val>>>
    decreases item, 1, count
  {
    if count == 0 then Some(Parsed([], 0))
    else
      match Parse(item, s)
      case None => None
      case Some(p) =>
        if p.used > |s| then None else
        match ParseItems(item, s[p.used..], count - 1)
        case None => None
        case Some(q) => Some(Parsed([p.value] + q.value, p.used + q.used))
  }

  /** Whatever the bytes, a parsed value has the shape asked for, is in bounds and is inside the bytes. */
  lemma {:induction false} ParsedInBounds(t: Shape, s: seq<byte>)
    ensures Parse(t, s).Some? ==>
              var p := Parse(t, s).value; HasShape(t, p.value) && InBounds(t, p.value) && p.used <= |s|
    decreases t, 0
  {
    match t
    case Int(width) => if |s| >= width { ValueBound(s[..width]); }
    case Str => ParsedSizedBound(s, 2); WidthBounds();
    case Rec => ParsedRecordFits(s);
    case List(item) =>
      if |s| >= 4 {
        ValueBound(s[..4]);
        WidthBounds();
        ParsedItemsInBounds(item, s[4..], Value(s[..4]));
      }
    case Both(first, second) =>
      ParsedInBounds(first, s);
      var p := Parse(first, s);
      if p.Some? {
        ParsedInBounds(second, s[p.value.used..]);
      }
  }

  lemma {:induction false} ParsedItemsInBounds(item: Shape, s: seq<byte>, count: nat)
    ensures ParseItems(item, s, count).Some? ==>
              var p := ParseItems(item, s, count).value;
              && |p.value| == count && p.used <= |s|
              && forall i :: 0 <= i < count ==> HasShape(item, p.value[i]) && InBounds(item, p.value[i])
    decreases item, 1, count
  {
    hide Parse, HasShape, InBounds;
    if count > 0 {
      ParsedInBounds(item, s);
      var p := Parse(item, s);
      if p.Some? {
        ParsedItemsInBounds(item, s[p.value.used..], count - 1);
      }
    }
  }



  /** One thing after another parses as its first part does, and then its second on the bytes left. */
  lemma Sequence(first: Shape, second: Shape, s: seq<byte>)
    ensures Parse(Both(first, second), s) == match Parse(first, s)
                                             case None => None
                                             case Some(p) =>
                                               if p.used > |s| then None else
                                               match Parse(second, s[p.used..])
                                               case None => None
                                               case Some(q) => Some(Parsed(Two(p.value, q.value), p.used + q.used))
  {
    hide ParseInt, ParseString, ParseRecord, ParseItems;
  }

  lemma Integer(width: nat, s: seq<byte>)
    ensures Parse(Int(width), s) == match ParseInt(s, width)
                                    case None => None
                                    case Some(p) => Some(Parsed(Num(p.value), p.used))
  {
  }

  lemma Text(s: seq<byte>)
    ensures Parse(Str, s) == match ParseString(s)
                             case None => None
                             case Some(p) => Some(Parsed(Bytes(p.value), p.used))
    ensures ParseString(s).Some? ==> ParseString(s).value.used <= |s|
  {
    ParsedSizedBound(s, 2);
  }

  /** Putting one more item at the front. */
  lemma {:induction false} PutItemsCons(item: Shape, v: Val, items: seq<Val>)
    requires HasShape(item, v) && forall i :: 0 <= i < |items| ==> HasShape(item, items[i])
    ensures PutItems(item, [v] + items) == Put(item, v) + PutItems(item, items)
    decreases |items|
  {
    hide Put, HasShape;
    var all := [v] + items;
    if items == [] {
      assert all[..0] == [];
    } else {
      PutItemsCons(item, v, items[..|items| - 1]);
      assert all[..|all| - 1] == [v] + items[..|items| - 1];
    }
  }

  lemma {:induction false} InBoundsRoundTrips(t: Shape, v: Val, tail: seq<byte>)
    requires HasShape(t, v) && InBounds(t, v)
    ensures Parse(t, Put(t, v) + tail) == Some(Parsed(v, |Put(t, v)|))
    decreases t, 3
  {
    WidthBounds();
    match t
    case Int(width) => IntThenTail(v.n, width, tail);
    case Str => SizedRoundTrip(v.bytes, 2, tail);
    case Rec => RecordRoundTrip(v.rec, tail);
    case List(item) => ListRoundTrips(item, v.items, tail);
    case Both(first, second) => BothRoundTrips(first, second, v.a, v.b, tail);
  }

  lemma {:induction false} ListRoundTrips(item: Shape, items: seq<Val>, tail: seq<byte>)
    requires HasShape(List(item), Items(items)) && InBounds(List(item), Items(items))
    ensures Parse(List(item), Put(List(item), Items(items)) + tail)
          == Some(Parsed(Items(items), |Put(List(item), Items(items))|))
    decreases List(item), 2
  {
    hide PutItems, ParseItems;
    var rest := PutItems(item, items) + tail;
    assert Put(List(item), Items(items)) + tail == BigEndian(|items|, 4) + rest;
    WidthBounds();
    IntThenTail(|items|, 4, rest);
    ItemsRoundTrip(item, items, tail);
  }

  lemma {:induction false} BothRoundTrips(first: Shape, second: Shape, v: Val, w: Val, tail: seq<byte>)
    requires HasShape(first, v) && InBounds(first, v) && HasShape(second, w) && InBounds(second, w)
    ensures Parse(Both(first, second), Put(first, v) + Put(second, w) + tail)
         == Some(Parsed(Two(v, w), |Put(first, v)| + |Put(second, w)|))
    decreases Both(first, second), 2
  {
    hide Put, Parse, HasShape, InBounds;
    var a, b := Put(first, v), Put(second, w);
    InBoundsRoundTrips(first, v, b + tail);
    InBoundsRoundTrips(second, w, tail);
    var s := a + (b + tail);
    assert a + b + tail == s && s[|a|..] == b + tail;
    Sequence(first, second, s);
  }

  lemma ParseItemsCons(item: Shape, s: seq<byte>, v: Val, n: nat, more: seq<Val>, m: nat)
    requires Parse(item, s) == Some(Parsed(v, n)) && n <= |s|
    requires ParseItems(item, s[n..], |more|) == Some(Parsed(more, m))
    ensures ParseItems(item, s, |[v] + more|) == Some(Parsed([v] + more, n + m))
  {
    hide Parse;
  }

  lemma NoItems(item: Shape, s: seq<byte>)
    ensures PutItems(item, []) == [] && ParseItems(item, s, 0) == Some(Parsed([], 0))
  {
  }

  lemma {:induction false} ItemsRoundTrip(item: Shape, items: seq<Val>, tail: seq<byte>)
    requires forall i :: 0 <= i < |items| ==> HasShape(item, items[i]) && InBounds(item, items[i])
    ensures ParseItems(item, PutItems(item, items) + tail, |items|) == Some(Parsed(items, |PutItems(item, items)|))
    decreases item, 4, |items|
  {
    hide Put, HasShape, InBounds, Parse, PutItems, ParseItems;
    NoItems(item, tail);
    if items == [] {
      assert [] + tail == tail;
    } else {
      var v, more := items[0], items[1..];
      assert items == [v] + more;
      PutItemsCons(item, v, more);
      var a, b := Put(item, v), PutItems(item, more);
      InBoundsRoundTrips(item, v, b + tail);
      ItemsRoundTrip(item, more, tail);
      var s := a + (b + tail);
      assert PutItems(item, items) + tail == s && s[|a|..] == b + tail;
      ParseItemsCons(item, s, v, |a|, more, |b|);
    }
  }

  // ---- What a parser accepts ----

  /** No records, whose bodies may have bytes left over. */
  predicate Plain(t: Shape) {
    match t
    case Int(_) => true
    case Str => true
    case Rec => false
    case List(item) => Plain(item)
    case Both(first, second) => Plain(first) && Plain(second)
  }

  /** What is read from any bytes is what would be written as those bytes: nothing else is accepted. */
  lemma {:induction false} ParsedIsPut(t: Shape, s: seq<byte>)
    requires Plain(t) && Parse(t, s).Some?
    ensures var p := Parse(t, s).value;
            p.used <= |s| && HasShape(t, p.value) && Put(t, p.value) == s[..p.used]
    decreases t, 3
  {
    ParsedInBounds(t, s);
    match t
    case Int(width) => ValueRoundTrip(s[..width]);
    case Str => TextIsPut(s);
    case List(item) => ListIsPut(item, s);
    case Both(first, second) => BothIsPut(first, second, s);
  }

  lemma TextIsPut(s: seq<byte>)
    requires ParseString(s).Some?
    ensures var p := ParseString(s).value; p.used <= |s| && PutString(p.value) == s[..p.used]
  {
    ParsesSizedExactly(s, 2);
    ValueRoundTrip(s[..2]);
    var n := 2 + Value(s[..2]);
    assert s[..2] + s[2..n] == s[..n];
  }

  lemma {:induction false} ListIsPut(item: Shape, s: seq<byte>)
    requires Plain(item) && Parse(List(item), s).Some?
    ensures var p := Parse(List(item), s).value;
            p.used <= |s| && HasShape(List(item), p.value) && Put(List(item), p.value) == s[..p.used]
    decreases List(item), 2
  {
    hide ParseItems, PutItems;
    var n := Value(s[..4]);
    ItemsArePut(item, s[4..], n);
    ParsedItemsInBounds(item, s[4..], n);
    ValueRoundTrip(s[..4]);
    var used := ParseItems(item, s[4..], n).value.used;
    assert s[..4] + s[4..][..used] == s[..4 + used];
  }

  lemma {:induction false} BothIsPut(first: Shape, second: Shape, s: seq<byte>)
    requires Plain(first) && Plain(second) && Parse(Both(first, second), s).Some?
    ensures var p := Parse(Both(first, second), s).value;
            p.used <= |s| && HasShape(Both(first, second), p.value)
            && Put(Both(first, second), p.value) == s[..p.used]
    decreases Both(first, second), 2
  {
    Sequence(first, second, s);
    hide Parse;
    ParsedIsPut(first, s);
    var p := Parse(first, s).value;
    ParsedIsPut(second, s[p.used..]);
    var q := Parse(second, s[p.used..]).value;
    assert s[..p.used] + s[p.used..][..q.used] == s[..p.used + q.used];
  }

  lemma {:induction false} ItemsArePut(item: Shape, s: seq<byte>, count: nat)
    requires Plain(item) && ParseItems(item, s, count).Some?
    ensures var p := ParseItems(item, s, count).value;
            && p.used <= |s| && (forall i :: 0 <= i < |p.value| ==> HasShape(item, p.value[i]))
            && PutItems(item, p.value) == s[..p.used]
    decreases item, 4, count
  {
    hide Parse, Put, HasShape;
    if count > 0 {
      ParsedIsPut(item, s);
      var p := Parse(item, s).value;
      var rest := s[p.used..];
      ItemsArePut(item, rest, count - 1);
      var q := ParseItems(item, rest, count - 1).value;
      PutItemsCons(item, p.value, q.value);
      assert s[..p.used] + rest[..q.used] == s[..p.used + q.used];
    }
  }

  /**
   * Writing a value and reading it back, whatever follows, gives the value and
   * leaves what follows, exactly when all its lengths are in bounds.
   */
  lemma WireRoundTrip(t: Shape, v: Val, tail: seq<byte>)
    requires HasShape(t, v)
    ensures Parse(t, Put(t, v) + tail) == Some(Parsed(v, |Put(t, v)|)) <==> InBounds(t, v)
  {
    if InBounds(t, v) {
      InBoundsRoundTrips(t, v, tail);
    } else {
      ParsedInBounds(t, Put(t, v) + tail);
    }
  }
}
