/** The fixed-size record buffer and the stream that formats a log record into it. */
module LogStreamImpl {
  import opened Decimal
  import AsyncLogSpec
  import AsyncLogProofs

  const LARGE_BUFFER: int := AsyncLogSpec.LARGE_BUFFER
  const MAX_NUMERIC_SIZE: int := 32

  class FixedBuffer {
    const data: array<char>
    var cur: nat

    ghost predicate Valid()
      reads this
    {
      cur <= data.Length
    }

    ghost function Contents(): string
      reads this, data
      requires Valid()
    {
      data[..cur]
    }

    constructor (size: nat)
      ensures Valid() && Contents() == "" && data.Length == size && fresh(data)
    {
      data := new char[size];
      cur := 0;
    }

    function Avail(): int
      reads this
    {
      data.Length - cur
    }

    /** Copies text that leaves at least one byte free, and drops any other. */
    method Append(text: string)
      requires Valid()
      modifies this`cur, data
      ensures Valid()
      ensures Contents() == old(Contents()) + if old(Avail()) > |text| then text else ""
    {
      if Avail() > |text| {
        forall i | 0 <= i < |text| {
          data[cur + i] := text[i];
        }
        cur := cur + |text|;
        assert Contents() == old(Contents()) + text;
      }
    }

    /** Takes in n bytes already written behind the contents. */
    method Add(n: nat)
      requires Valid() && n <= Avail()
      modifies this`cur
      ensures Valid() && Contents() == data[..old(cur) + n]
    {
      cur := cur + n;
    }

    method Reset()
      modifies this`cur
      ensures Valid() && Contents() == ""
    {
      cur := 0;
    }
  }

  /** What can be put into a stream; `Real` is a floating-point value as snprintf shows it. */
  datatype Item =
    | Words(text: string)
    | Number(value: int)
    | Real(shown: string)
    | Truth(value_: bool)
    | Character(c: char)
    | NullText

  /** What an item looks like when it fits. */
  function Shown(i: Item): string {
    match i
    case Words(s) => s
    case Number(v) => Text(v)
    case Real(s) => s
    case Truth(b) => if b then "1" else "0"
    case Character(c) => [c]
    case NullText => "(null)"
  }

  /** Text needs one byte more than its length, a number the room of the longest number. */
  predicate Fits(size: int, used: int, i: Item) {
    if i.Number? || i.Real? then size - used >= MAX_NUMERIC_SIZE else size - used > |Shown(i)|
  }

  function Put(size: int, before: string, i: Item): string {
    if Fits(size, |before|, i) then before + Shown(i) else before
  }

  function PutAll(size: int, before: string, items: seq<Item>): string {
    if items == [] then before else Put(size, PutAll(size, before, items[..|items| - 1]), items[|items| - 1])
  }

  /** "%.12g" shows twelve digits, a sign, a point and an exponent at most: fewer than 32 characters. */
  predicate Printable(i: Item) {
    (i.Number? ==> IsMachineInt(i.value)) && (i.Real? ==> |i.shown| < MAX_NUMERIC_SIZE)
  }

  class LogStream {
    const buffer: FixedBuffer

    ghost predicate Valid()
      reads this, buffer
    {
      buffer.Valid() && buffer.data.Length == LARGE_BUFFER && buffer.cur < LARGE_BUFFER
    }

    ghost function Record(): string
      reads this, buffer, buffer.data
      requires Valid()
    {
      buffer.Contents()
    }

    constructor ()
      ensures Valid() && Record() == "" && fresh(buffer) && fresh(buffer.data)
    {
      buffer := new FixedBuffer(LARGE_BUFFER);
    }

    /** The guard leaves room for the text of any machine integer and its terminator. */
    method FormatInteger(v: int)
      requires Valid() && IsMachineInt(v)
      modifies buffer`cur, buffer.data
      ensures Valid() && Record() == Put(LARGE_BUFFER, old(Record()), Number(v))
    {
      if buffer.Avail() >= MAX_NUMERIC_SIZE {
        TextFits(v);
        var len := Convert(buffer.data, buffer.cur, v);
        buffer.Add(len);
      }
    }

    /** The digits of a floating-point value are snprintf's; it writes them and a terminator. */
    method FormatReal(shown: string)
      requires Valid() && |shown| < MAX_NUMERIC_SIZE
      modifies buffer`cur, buffer.data
      ensures Valid() && Record() == Put(LARGE_BUFFER, old(Record()), Real(shown))
    {
      if buffer.Avail() >= MAX_NUMERIC_SIZE {
        forall i | 0 <= i <= |shown| {
          buffer.data[buffer.cur + i] := if i < |shown| then shown[i] else '\0';
        }
        assert buffer.data[..buffer.cur + |shown|] == old(Record()) + shown;
        buffer.Add(|shown|);
      }
    }

    method Print(i: Item)
      requires Valid() && Printable(i)
      modifies buffer`cur, buffer.data
      ensures Valid() && Record() == Put(LARGE_BUFFER, old(Record()), i)
    {
      match i {
        case Words(s) => buffer.Append(s);
        case Number(v) => FormatInteger(v);
        case Real(s) => FormatReal(s);
        case Truth(b) => buffer.Append(if b then "1" else "0");
        case Character(c) => buffer.Append([c]);
        case NullText => buffer.Append("(null)");
      }
    }

    /** A whole record; it is always shorter than a buffer of the asynchronous log. */
    method PrintAll(items: seq<Item>)
      requires Valid() && forall i <- items :: Printable(i)
      modifies buffer`cur, buffer.data
      ensures Valid() && Record() == PutAll(LARGE_BUFFER, old(Record()), items) && |Record()| < LARGE_BUFFER
    {
      for k := 0 to |items|
        invariant Valid() && Record() == PutAll(LARGE_BUFFER, old(Record()), items[..k])
      {
        assert items[..k + 1][..k] == items[..k];
        Print(items[k]);
      }
      assert items[..|items|] == items;
    }

    method ResetBuffer()
      requires Valid()
      modifies buffer`cur
      ensures Valid() && Record() == ""
    {
      buffer.Reset();
    }
  }

  /** Whatever is put into a stream, in any order, the record stays shorter than the buffer. */
  lemma {:induction false} RecordShort(items: seq<Item>)
    requires forall i <- items :: Printable(i)
    ensures |PutAll(LARGE_BUFFER, "", items)| < LARGE_BUFFER
    decreases |items|
  {
    if items != [] {
      var i := items[|items| - 1];
      RecordShort(items[..|items| - 1]);
      assert Printable(i);
      if i.Number? { TextFits(i.value); }
    }
  }

  /** So every record printed through a stream is stored whole by the asynchronous log, behind
      everything that is pending there. */
  lemma NoRecordDropped(s: AsyncLogSpec.State, items: seq<Item>, addr: nat)
    requires AsyncLogProofs.Inv(s) && forall i <- items :: Printable(i)
    ensures var record := PutAll(LARGE_BUFFER, "", items);
      AsyncLogProofs.Pending(AsyncLogSpec.AppendStep(s, record, addr)) == AsyncLogProofs.Pending(s) + record
  {
    RecordShort(items);
    AsyncLogProofs.RecordStoredIff(s, PutAll(LARGE_BUFFER, "", items), addr);
  }

  /** While room remains, nothing is left out: a record whose items all fit is their concatenation. */
  lemma {:induction false} RecordComplete(items: seq<Item>)
    requires forall i <- items :: Printable(i)
    requires |AllShown(items)| <= LARGE_BUFFER - MAX_NUMERIC_SIZE
    ensures PutAll(LARGE_BUFFER, "", items) == AllShown(items)
    decreases |items|
  {
    if items != [] {
      RecordComplete(items[..|items| - 1]);
    }
  }

  function AllShown(items: seq<Item>): string {
    if items == [] then "" else AllShown(items[..|items| - 1]) + Shown(items[|items| - 1])
  }

  /** In literals: what a record grows by when there is room, and when there is. */
  lemma PrintedIff(before: string, v: int, text: string, c: char)
    requires |before| < 4_000_000
    ensures var room := 4_000_000 - |before|;
      && Put(LARGE_BUFFER, before, Truth(true)) == before + (if room > 1 then "1" else "")
      && Put(LARGE_BUFFER, before, Truth(false)) == before + (if room > 1 then "0" else "")
      && Put(LARGE_BUFFER, before, NullText) == before + (if room > 6 then "(null)" else "")
      && Put(LARGE_BUFFER, before, Character(c)) == before + (if room > 1 then [c] else [])
      && Put(LARGE_BUFFER, before, Words(text)) == before + (if room > |text| then text else "")
      && Put(LARGE_BUFFER, before, Number(v)) == before + (if room >= 32 then Text(v) else "")
      && Put(LARGE_BUFFER, before, Real(text)) == before + (if room >= 32 then text else "")
  {
    assert before + "" == before && before + [] == before;
  }
}
