/**
 One-byte and two-byte RTP header extensions: `get_extension` and `set_extension` (src/rtp.rs, section 4.2 of RFC 8285).
 */
module RtpExtension {
  import opened Wrappers
  import opened Bytes
  import Modular
  import Rtp

  const ONE_BYTE: U16 := 0xBEDE
  const TWO_BYTE: U16 := 0x1000

  datatype Item = Item(id: Byte, value: seq<Byte>)

  /** A decoded block: its complete elements in order, and the id of a last element that runs past the end. */
  datatype Block = Block(items: seq<Item>, overrun: Option<Byte>)

  function Cons(item: Item, rest: Block): (b: Block) { Block([item] + rest.items, rest.overrun) }

  /** One-byte elements from `at` on; zero bytes are padding, id 15 ends the block. */
  function Decode(data: seq<Byte>, at: nat): (b: Block)
    decreases |data| - at
  {
    if at >= |data| then Block([], None)
    else if data[at] == 0 then Decode(data, at + 1)
    else
      var id: Byte := data[at] / 16;
      var end := at + 1 + data[at] % 16 + 1;
      if id == 15 then Block([], None)
      else if end > |data| then Block([], Some(id))
      else Cons(Item(id, data[at + 1..end]), Decode(data, end))
  }

  /** Two-byte elements: an id byte and a length byte. */
  function DecodeTwo(data: seq<Byte>, at: nat): (b: Block)
    decreases |data| - at
  {
    if at >= |data| then Block([], None)
    else if data[at] == 0 then DecodeTwo(data, at + 1)
    else if at + 1 >= |data| then Block([], None)
    else
      var end := at + 2 + data[at + 1];
      if end > |data| then Block([], Some(data[at]))
      else Cons(Item(data[at], data[at + 2..end]), DecodeTwo(data, end))
  }

  /** The first element with this id. */
  function Lookup(items: seq<Item>, id: Byte): (v: Option<seq<Byte>>)
  {
    if items == [] then None else if items[0].id == id then Some(items[0].value) else Lookup(items[1..], id)
  }

  function BlockOf(e: Option<Rtp.Extension>): (b: Block)
  {
    if e.None? then Block([], None)
    else if e.value.profile == ONE_BYTE then Decode(e.value.data, 0)
    else if e.value.profile == TWO_BYTE then DecodeTwo(e.value.data, 0)
    else Block([], None)
  }

  /** What a search finds from `at` on. */
  lemma NextElement(data: seq<Byte>, at: nat, id: Byte)
    requires at < |data|
    ensures var (extId, end) := (data[at] / 16, at + 1 + data[at] % 16 + 1);
            Lookup(Decode(data, at).items, id) ==
            if data[at] == 0 then Lookup(Decode(data, at + 1).items, id)
            else if extId == 15 || end > |data| then None
            else if extId == id then Some(data[at + 1..end])
            else Lookup(Decode(data, end).items, id)
  {
  }

  method GetOneByte(data: seq<Byte>, id: Byte) returns (v: Option<seq<Byte>>)
    ensures v == Lookup(Decode(data, 0).items, id)
  {
    var offset: nat := 0;
    while offset < |data|
      invariant Lookup(Decode(data, 0).items, id) == Lookup(Decode(data, offset).items, id)
      decreases |data| - offset
    {
      var b := data[offset];
      NextElement(data, offset, id);
      if b == 0 {
        offset := offset + 1;
        continue;
      }
      var extId: Byte, len: nat := b / 16, b % 16 + 1;
      offset := offset + 1;
      if extId == 15 {
        break;
      }
      if extId == id {
        if offset + len <= |data| {
          return Some(data[offset..offset + len]);
        }
        return None;
      }
      offset := offset + len;
    }
    v := None;
  }

  method GetTwoByte(data: seq<Byte>, id: Byte) returns (v: Option<seq<Byte>>)
    ensures v == Lookup(DecodeTwo(data, 0).items, id)
  {
    var offset: nat := 0;
    while offset < |data|
      invariant Lookup(DecodeTwo(data, 0).items, id) == Lookup(DecodeTwo(data, offset).items, id)
      decreases |data| - offset
    {
      var extId := data[offset];
      if extId == 0 {
        offset := offset + 1;
        continue;
      }
      offset := offset + 1;
      if offset >= |data| {
        break;
      }
      var len: nat := data[offset];
      offset := offset + 1;
      if extId == id {
        if offset + len <= |data| {
          return Some(data[offset..offset + len]);
        }
        return None;
      }
      offset := offset + len;
    }
    v := None;
  }

  // ----- writing a block

  predicate ItemOk(i: Item) { i.id <= 14 && 1 <= |i.value| <= 16 && (i.id == 0 ==> |i.value| > 1) }

  ghost predicate ItemsOk(items: seq<Item>) { forall n | 0 <= n < |items| :: ItemOk(items[n]) }

  function Encode(i: Item): (b: seq<Byte>)
    requires ItemOk(i)
    ensures |b| == 1 + |i.value|
  {
    [16 * i.id + |i.value| - 1] + i.value
  }

  function EncodeAll(items: seq<Item>): (b: seq<Byte>)
    requires ItemsOk(items)
  {
    if items == [] then [] else Encode(items[0]) + EncodeAll(items[1..])
  }

  lemma {:induction false} EncodeSnoc(items: seq<Item>, i: Item)
    requires ItemsOk(items) && ItemOk(i)
    ensures ItemsOk(items + [i]) && EncodeAll(items + [i]) == EncodeAll(items) + Encode(i)
  {
    if items == [] {
      assert items + [i] == [i] && EncodeAll([i][1..]) == [];
    } else {
      EncodeSnoc(items[1..], i);
      assert (items + [i])[1..] == items[1..] + [i];
      Assoc3(Encode(items[0]), EncodeAll(items[1..]), Encode(i));
    }
  }

  /** What a decoder finds is well-formed. */
  lemma {:induction false} DecodedOk(data: seq<Byte>, at: nat)
    ensures ItemsOk(Decode(data, at).items)
    decreases |data| - at
  {
    if at < |data| {
      if data[at] == 0 {
        DecodedOk(data, at + 1);
      } else if data[at] / 16 != 15 {
        DecodedOk(data, at + 1 + data[at] % 16 + 1);
      }
    }
  }

  lemma {:induction false} DecodeZeros(data: seq<Byte>, at: nat)
    requires at <= |data| && forall n | at <= n < |data| :: data[n] == 0
    ensures Decode(data, at) == Block([], None)
    decreases |data| - at
  {
    if at < |data| { DecodeZeros(data, at + 1); }
  }

  /** Reading back one element, wherever it stands. */
  lemma DecodeItem(data: seq<Byte>, at: nat, i: Item, end: nat)
    requires ItemOk(i) && end == at + 1 + |i.value| <= |data| && data[at..end] == Encode(i)
    ensures Decode(data, at) == Cons(i, Decode(data, end))
  {
    var n := |i.value|;
    var b: int := 16 * i.id + n - 1;
    assert data[at] == data[at..end][0] == b;
    Modular.Unique(b, 16, i.id, n - 1);
    assert data[at + 1..end] == data[at..end][1..] == i.value;
  }

  lemma {:induction false} DecodeEncoded(data: seq<Byte>, at: nat, items: seq<Item>, end: nat)
    requires ItemsOk(items) && at <= end <= |data| && data[at..end] == EncodeAll(items)
    requires forall n | end <= n < |data| :: data[n] == 0
    ensures Decode(data, at) == Block(items, None)
    decreases |items|
  {
    if items == [] {
      DecodeZeros(data, at);
    } else {
      FirstOf(data, at, end, Encode(items[0]), EncodeAll(items[1..]));
      var mid := at + |Encode(items[0])|;
      DecodeEncoded(data, mid, items[1..], end);
      PrependItem(data, at, items, mid);
    }
  }

  lemma PrependItem(data: seq<Byte>, at: nat, items: seq<Item>, mid: nat)
    requires items != [] && ItemOk(items[0]) && mid == at + 1 + |items[0].value| <= |data|
             && data[at..mid] == Encode(items[0])
    requires Decode(data, mid) == Block(items[1..], None)
    ensures Decode(data, at) == Block(items, None)
  {
    DecodeItem(data, at, items[0], mid);
    ConsBlock(items);
  }

  lemma ConsBlock(items: seq<Item>)
    requires items != []
    ensures Cons(items[0], Block(items[1..], None)) == Block(items, None)
  {
    assert [items[0]] + items[1..] == items;
  }

  // ----- replacing an element

  function Replace(i: Item, id: Byte, value: seq<Byte>): (r: Item) { if i.id == id then Item(id, value) else i }

  function ReplaceAll(items: seq<Item>, id: Byte, value: seq<Byte>): (r: seq<Item>)
    ensures |r| == |items|
  {
    seq(|items|, n requires 0 <= n < |items| => Replace(items[n], id, value))
  }

  predicate Has(items: seq<Item>, id: Byte) { exists n :: 0 <= n < |items| && items[n].id == id }

  /** The elements of a block after `set_extension`. */
  function SetItems(b: Block, id: Byte, value: seq<Byte>): (items: seq<Item>)
  {
    var replaced := ReplaceAll(b.items, id, value);
    if Has(b.items, id) && b.overrun.None? then replaced else replaced + [Item(id, value)]
  }

  /** The bytes of a block: its elements, padded to a 32-bit boundary. */
  function Layout(items: seq<Item>): (data: seq<Byte>)
    requires ItemsOk(items)
    ensures |data| % 4 == 0
  {
    Aligned(EncodeAll(items))
  }

  function Aligned(raw: seq<Byte>): (data: seq<Byte>)
    ensures |data| % 4 == 0 && |data| < |raw| + 4
  {
    raw + Zeros((|raw| + 3) / 4 * 4 - |raw|)
  }

  lemma SetItemsOk(b: Block, id: Byte, value: seq<Byte>)
    requires ItemsOk(b.items) && ItemOk(Item(id, value))
    ensures ItemsOk(SetItems(b, id, value))
  {
  }

  lemma LayoutDecodes(items: seq<Item>)
    requires ItemsOk(items)
    ensures Decode(Layout(items), 0) == Block(items, None)
  {
    var raw := EncodeAll(items);
    assert Layout(items)[0..|raw|] == raw;
    DecodeEncoded(Layout(items), 0, items, |raw|);
  }

  // ----- the header

  datatype Outcome = Done | Refused | Panicked

  predicate Acceptable(id: Byte, value: seq<Byte>) { 1 <= id <= 14 && 1 <= |value| <= 16 }

  /** The block a call works on: an absent one counts as an empty one-byte block. */
  function Current(e: Option<Rtp.Extension>): (x: Rtp.Extension)
  {
    if e.Some? then e.value else Rtp.Extension(ONE_BYTE, [])
  }

  /** An element of another id that runs past the end is copied without a bound check. */
  predicate Breaks(b: Block, id: Byte) { b.overrun.Some? && b.overrun.value != id }

  function OutcomeOf(e: Option<Rtp.Extension>, id: Byte, value: seq<Byte>): (o: Outcome)
  {
    if !Acceptable(id, value) || Current(e).profile != ONE_BYTE then Refused
    else if Breaks(Decode(Current(e).data, 0), id) then Panicked
    else Done
  }

  function After(e: Option<Rtp.Extension>, id: Byte, value: seq<Byte>): (e': Option<Rtp.Extension>)
  {
    match OutcomeOf(e, id, value)
    case Refused => e
    case Panicked => None
    case Done =>
      var b := Decode(Current(e).data, 0);
      DecodedOk(Current(e).data, 0);
      SetItemsOk(b, id, value);
      Some(Rtp.Extension(ONE_BYTE, Layout(SetItems(b, id, value))))
  }

  lemma ReplaceSnoc(items: seq<Item>, i: Item, id: Byte, value: seq<Byte>)
    requires ItemsOk(items) && ItemOk(i) && ItemOk(Item(id, value))
    ensures ItemsOk(items + [i]) && ItemsOk(ReplaceAll(items, id, value)) && ItemsOk(ReplaceAll(items + [i], id, value))
    ensures EncodeAll(ReplaceAll(items + [i], id, value))
            == EncodeAll(ReplaceAll(items, id, value)) + Encode(Replace(i, id, value))
    ensures Has(items + [i], id) <==> Has(items, id) || i.id == id
  {
    assert ReplaceAll(items + [i], id, value) == ReplaceAll(items, id, value) + [Replace(i, id, value)];
    EncodeSnoc(ReplaceAll(items, id, value), Replace(i, id, value));
    assert (items + [i])[|items|] == i;
    if Has(items, id) {
      var n :| 0 <= n < |items| && items[n].id == id;
      assert (items + [i])[n].id == id;
    }
  }

  /** What a scan has seen of a block and what is still ahead. */
  predicate Scanned(all: Block, done: seq<Item>, rest: Block)
  {
    all.items == done + rest.items && all.overrun == rest.overrun
  }

  lemma ScanItem(all: Block, done: seq<Item>, i: Item, rest: Block)
    requires Scanned(all, done, Cons(i, rest))
    ensures Scanned(all, done + [i], rest)
  {
    Assoc3(done, [i], rest.items);
  }

  /** One element of a block as its bytes stand there. */
  lemma EncodedAt(data: seq<Byte>, at: nat, id: Byte, len: nat)
    requires at + 1 + len <= |data| && id == data[at] / 16 && len == data[at] % 16 + 1 && data[at] != 0 && id != 15
    ensures ItemOk(Item(id, data[at + 1..at + 1 + len]))
    ensures Encode(Item(id, data[at + 1..at + 1 + len])) == [data[at]] + data[at + 1..at + 1 + len]
  {
  }

  /**
   The loop state at `offset`: elements `done` are rewritten into `out`; `cut` is set once an element of this id ran
   past the end.
   */
  ghost predicate Progress(data: seq<Byte>, id: Byte, value: seq<Byte>, offset: nat, done: seq<Item>, cut: bool,
                           out: seq<Byte>, found: bool)
  {
    var all := Decode(data, 0);
    && ItemsOk(done) && ItemOk(Item(id, value)) && ItemsOk(ReplaceAll(done, id, value))
    && if cut then offset >= |data| && found && all == Block(done, Some(id))
                   && out == EncodeAll(ReplaceAll(done, id, value)) + Encode(Item(id, value))
       else Scanned(all, done, Decode(data, offset)) && found == Has(done, id)
            && out == EncodeAll(ReplaceAll(done, id, value))
  }

  /** Where an element starts: not padding, not the end marker. */
  predicate Element(data: seq<Byte>, at: nat, extId: Byte, len: nat)
  {
    at < |data| && data[at] != 0 && extId == data[at] / 16 && extId != 15 && len == data[at] % 16 + 1
  }

  lemma ProgressItem(data: seq<Byte>, id: Byte, value: seq<Byte>, at: nat, done: seq<Item>, out: seq<Byte>,
                     found: bool, extId: Byte, len: nat, bytes: seq<Byte>)
    requires Progress(data, id, value, at, done, false, out, found) && Element(data, at, extId, len)
             && at + 1 + len <= |data|
    requires bytes == if extId == id then Encode(Item(id, value)) else [data[at]] + data[at + 1..at + 1 + len]
    ensures var item := Item(extId, data[at + 1..at + 1 + len]);
            Progress(data, id, value, at + 1 + len, done + [item], false, out + bytes, found || extId == id)
  {
    var item := Item(extId, data[at + 1..at + 1 + len]);
    EncodedAt(data, at, extId, len);
    ReplaceSnoc(done, item, id, value);
    ScanItem(Decode(data, 0), done, item, Decode(data, at + 1 + len));
  }

  lemma ProgressCut(data: seq<Byte>, id: Byte, value: seq<Byte>, at: nat, done: seq<Item>, out: seq<Byte>, found: bool,
                    len: nat, entry: seq<Byte>)
    requires ItemOk(Item(id, value)) && entry == Encode(Item(id, value))
    requires Progress(data, id, value, at, done, false, out, found) && Element(data, at, id, len)
             && at + 1 + len > |data|
    ensures Progress(data, id, value, at + 1 + len, done, true, out + entry, true)
  {
    assert done + [] == done;
  }

  /** After the last element: the rewritten elements, and the new one if it was not among them. */
  lemma ProgressEnd(data: seq<Byte>, id: Byte, value: seq<Byte>, at: nat, done: seq<Item>, cut: bool, out: seq<Byte>,
                    found: bool, entry: seq<Byte>)
    requires ItemOk(Item(id, value)) && entry == Encode(Item(id, value))
    requires Progress(data, id, value, at, done, cut, out, found)
    requires at >= |data| || (data[at] != 0 && data[at] / 16 == 15)
    ensures !Breaks(Decode(data, 0), id) && ItemsOk(SetItems(Decode(data, 0), id, value))
    ensures Layout(SetItems(Decode(data, 0), id, value)) == Aligned(if found then out else out + entry)
  {
    AllDone(data, id, value, at, done, cut, out, found);
    EncodeSnoc(ReplaceAll(done, id, value), Item(id, value));
  }

  lemma AllDone(data: seq<Byte>, id: Byte, value: seq<Byte>, at: nat, done: seq<Item>, cut: bool, out: seq<Byte>,
                found: bool)
    requires Progress(data, id, value, at, done, cut, out, found)
    requires at >= |data| || (data[at] != 0 && data[at] / 16 == 15)
    ensures Decode(data, 0) == Block(done, if cut then Some(id) else None)
    ensures SetItems(Decode(data, 0), id, value)
            == if found && !cut then ReplaceAll(done, id, value) else ReplaceAll(done, id, value) + [Item(id, value)]
  {
    assert done + [] == done;
  }

  lemma ProgressZero(data: seq<Byte>, id: Byte, value: seq<Byte>, at: nat, done: seq<Item>, out: seq<Byte>, found: bool)
    requires Progress(data, id, value, at, done, false, out, found) && at < |data| && data[at] == 0
    ensures Progress(data, id, value, at + 1, done, false, out, found)
  {
  }

  /** One element of the old block: replaced, copied, or the end of the call. */
  method Place(data: seq<Byte>, id: Byte, value: seq<Byte>, entry: seq<Byte>, offset: nat, out: seq<Byte>, found: bool,
               ghost done: seq<Item>)
    returns (ok: bool, out': seq<Byte>, found': bool, offset': nat, ghost done': seq<Item>, ghost cut: bool)
    requires ItemOk(Item(id, value)) && entry == Encode(Item(id, value))
    requires offset < |data| && data[offset] != 0 && data[offset] / 16 != 15
    requires Progress(data, id, value, offset, done, false, out, found)
    ensures !ok ==> Breaks(Decode(data, 0), id)
    ensures ok ==> offset' > offset && (offset' < |data| ==> !cut)
    ensures ok ==> Progress(data, id, value, offset', done', cut, out', found')
  {
    var b := data[offset];
    var extId: Byte, len: nat := b / 16, b % 16 + 1;
    ok, out', found', offset', done', cut := true, out, found, offset + 1 + len, done, false;
    if extId == id {
      if offset + 1 + len <= |data| {
        ProgressItem(data, id, value, offset, done, out, found, extId, len, entry);
        done' := done + [Item(extId, data[offset + 1..offset + 1 + len])];
      } else {
        ProgressCut(data, id, value, offset, done, out, found, len, entry);
        cut := true;
      }
      found' := true;
      out' := out + entry;
    } else {
      if offset + 1 + len > |data| {
        ok := false;
        return;
      }
      var copy := [b] + data[offset + 1..offset + 1 + len];
      ProgressItem(data, id, value, offset, done, out, found, extId, len, copy);
      done' := done + [Item(extId, data[offset + 1..offset + 1 + len])];
      out' := out + copy;
    }
  }

  /** The rebuilding loop; `None` is the panic on an out-of-range slice. */
  method Rebuild(data: seq<Byte>, id: Byte, value: seq<Byte>) returns (r: Option<seq<Byte>>)
    requires Acceptable(id, value)
    ensures r.None? <==> Breaks(Decode(data, 0), id)
    ensures r.Some? ==>
              ItemsOk(SetItems(Decode(data, 0), id, value)) && r.value == Layout(SetItems(Decode(data, 0), id, value))
  {
    var header: Byte := 16 * id + |value| - 1;
    var entry := [header] + value;
    var newData: seq<Byte> := [];
    var found := false;
    var offset: nat := 0;
    ghost var done: seq<Item>, cut := [], false;
    ProgressStart(data, id, value);
    while offset < |data|
      invariant Progress(data, id, value, offset, done, cut, newData, found)
      invariant offset < |data| ==> !cut
      decreases |data| - offset
    {
      var b := data[offset];
      if b == 0 {
        ProgressZero(data, id, value, offset, done, newData, found);
        offset := offset + 1;
        continue;
      }
      if b / 16 == 15 {
        break;
      }
      var ok;
      ok, newData, found, offset, done, cut := Place(data, id, value, entry, offset, newData, found, done);
      if !ok {
        return None;
      }
    }
    ProgressEnd(data, id, value, offset, done, cut, newData, found, entry);
    if !found {
      newData := newData + entry;
    }
    r := Some(Aligned(newData));
  }

  lemma ProgressStart(data: seq<Byte>, id: Byte, value: seq<Byte>)
    requires Acceptable(id, value)
    ensures Progress(data, id, value, 0, [], false, [], false)
  {
    assert ReplaceAll([], id, value) == [];
    assert [] + Decode(data, 0).items == Decode(data, 0).items;
  }

  /** The extension field of a header. */
  class ExtensionField {
    var extension: Option<Rtp.Extension>

    constructor (e: Option<Rtp.Extension>)
      ensures extension == e
    {
      extension := e;
    }

    method Get(id: Byte) returns (v: Option<seq<Byte>>)
      ensures v == Lookup(BlockOf(extension).items, id)
    {
      v := None;
      if extension.Some? {
        if extension.value.profile == ONE_BYTE {
          v := GetOneByte(extension.value.data, id);
        } else if extension.value.profile == TWO_BYTE {
          v := GetTwoByte(extension.value.data, id);
        }
      }
    }

    /** Takes the block out, rebuilds it and puts it back; a refused call leaves it as it was. */
    method Set(id: Byte, value: seq<Byte>) returns (o: Outcome)
      modifies this
      ensures o == OutcomeOf(old(extension), id, value) && extension == After(old(extension), id, value)
    {
      if id == 0 || id >= 15 || |value| > 16 || value == [] {
        return Refused;
      }
      var e := if extension.Some? then extension.value else Rtp.Extension(ONE_BYTE, []);
      if e.profile != ONE_BYTE {
        return Refused;
      }
      extension := None;
      var data := Rebuild(e.data, id, value);
      if data.None? {
        return Panicked;
      }
      extension := Some(Rtp.Extension(ONE_BYTE, data.value));
      o := Done;
    }
  }

  // ----- refinement of a finite map

  /** What `get_extension` answers, as a map. */
  function Contents(items: seq<Item>): (m: map<Byte, seq<Byte>>)
  {
    map id: Byte | 0 <= id < 256 && Lookup(items, id).Some? :: Lookup(items, id).value
  }

  lemma {:induction false} LookupReplaced(items: seq<Item>, id: Byte, value: seq<Byte>, j: Byte)
    ensures Lookup(ReplaceAll(items, id, value), j)
            == if j == id && Lookup(items, id).Some? then Some(value) else Lookup(items, j)
  {
    if items != [] {
      LookupReplaced(items[1..], id, value, j);
      assert ReplaceAll(items, id, value)[1..] == ReplaceAll(items[1..], id, value);
    }
  }

  lemma {:induction false} LookupAppended(items: seq<Item>, i: Item, j: Byte)
    ensures Lookup(items + [i], j)
            == if Lookup(items, j).Some? then Lookup(items, j) else if i.id == j then Some(i.value) else None
  {
    if items == [] {
      assert Lookup([i][1..], j) == None;
    } else {
      LookupAppended(items[1..], i, j);
      assert (items + [i])[1..] == items[1..] + [i];
    }
  }

  lemma {:induction false} LookupHas(items: seq<Item>, id: Byte)
    ensures Lookup(items, id).Some? <==> Has(items, id)
  {
    if items != [] {
      LookupHas(items[1..], id);
      if Has(items[1..], id) {
        var n :| 0 <= n < |items[1..]| && items[1..][n].id == id;
        assert items[n + 1].id == id;
      }
      if Has(items, id) && items[0].id != id {
        var n :| 0 <= n < |items| && items[n].id == id;
        assert items[1..][n - 1].id == id;
      }
    }
  }

  /**
   Setting an element updates the map at its id and nowhere else, in any block, also one with a broken last element.
   */
  lemma SetRefinesUpdate(b: Block, id: Byte, value: seq<Byte>)
    ensures Contents(SetItems(b, id, value)) == Contents(b.items)[id := value]
  {
    forall j: Byte ensures Lookup(SetItems(b, id, value), j) == if j == id then Some(value) else Lookup(b.items, j) {
      LookupReplaced(b.items, id, value, j);
      LookupAppended(ReplaceAll(b.items, id, value), Item(id, value), j);
      LookupHas(b.items, id);
    }
  }

  /**
   One call on any one-byte block: when it succeeds, the map is updated; the new block has no broken element and is
   aligned.
   */
  lemma SetStep(e: Option<Rtp.Extension>, id: Byte, value: seq<Byte>)
    requires OutcomeOf(e, id, value) == Done
    ensures var e' := After(e, id, value);
            && e'.Some? && |e'.value.data| % 4 == 0 && BlockOf(e').overrun.None?
            && BlockOf(e').items == SetItems(BlockOf(e), id, value)
            && Contents(BlockOf(e').items) == Contents(BlockOf(e).items)[id := value]
  {
    var b := Decode(Current(e).data, 0);
    DecodedOk(Current(e).data, 0);
    SetItemsOk(b, id, value);
    LayoutDecodes(SetItems(b, id, value));
    SetRefinesUpdate(b, id, value);
  }

  /** A one-byte block that ends inside another element makes a call panic, and the block is gone afterwards. */
  lemma BrokenBlockPanics()
    ensures var e := Some(Rtp.Extension(ONE_BYTE, [0x1F, 1, 2, 3]));
            OutcomeOf(e, 2, [7]) == Panicked && After(e, 2, [7]) == None && !WellFormed(e)
  {
  }

  // ----- any run of calls

  datatype Call = Call(id: Byte, value: seq<Byte>)

  function Run(e: Option<Rtp.Extension>, calls: seq<Call>): (e': Option<Rtp.Extension>)
  {
    if calls == [] then e
    else var m := |calls| - 1; After(Run(e, calls[..m]), calls[m].id, calls[m].value)
  }

  /** The map the calls describe: the last acceptable value for each id. */
  function Described(start: map<Byte, seq<Byte>>, calls: seq<Call>): (m: map<Byte, seq<Byte>>)
  {
    if calls == [] then start
    else
      var c := calls[|calls| - 1];
      var before := Described(start, calls[..|calls| - 1]);
      if Acceptable(c.id, c.value) then before[c.id := c.value] else before
  }

  /** A block no call breaks on: absent, or one-byte and complete. */
  predicate WellFormed(e: Option<Rtp.Extension>)
  {
    e.None? || (e.value.profile == ONE_BYTE && Decode(e.value.data, 0).overrun.None?)
  }

  /**
   From any well-formed block, every run of calls keeps it well-formed, never panics, refuses exactly the unacceptable
   values, and leaves what the map of accepted values says.
   */
  lemma {:induction false} RunRefinesMap(e: Option<Rtp.Extension>, calls: seq<Call>)
    requires WellFormed(e)
    ensures WellFormed(Run(e, calls))
    ensures Contents(BlockOf(Run(e, calls)).items) == Described(Contents(BlockOf(e).items), calls)
    ensures forall id: Byte, value :: OutcomeOf(Run(e, calls), id, value)
              == if Acceptable(id, value) then Done else Refused
  {
    if calls != [] {
      var m := |calls| - 1;
      var before := Run(e, calls[..m]);
      RunRefinesMap(e, calls[..m]);
      if Acceptable(calls[m].id, calls[m].value) { SetStep(before, calls[m].id, calls[m].value); }
    }
  }

  // ----- size

  function Ids(items: seq<Item>): (ids: set<Byte>) { set n | 0 <= n < |items| :: items[n].id }

  predicate DistinctIds(items: seq<Item>) { forall a, b | 0 <= a < b < |items| :: items[a].id != items[b].id }

  predicate Settable(items: seq<Item>)
  {
    DistinctIds(items) && forall n | 0 <= n < |items| :: Acceptable(items[n].id, items[n].value)
  }

  lemma {:induction false} DistinctCount(items: seq<Item>)
    requires DistinctIds(items)
    ensures |Ids(items)| == |items|
  {
    if items != [] {
      var m := |items| - 1;
      DistinctCount(items[..m]);
      assert Ids(items) == Ids(items[..m]) + {items[m].id};
    }
  }

  lemma AtMostFourteen(items: seq<Item>)
    requires Settable(items)
    ensures |items| <= 14
  {
    DistinctCount(items);
    var all: set<Byte> := {1, 2, 3, 4, 5, 6, 7, 8, 9, 10, 11, 12, 13, 14};
    assert |all| == 14;
    Modular.SubsetCount(Ids(items), all);
  }

  lemma {:induction false} EncodedSize(items: seq<Item>)
    requires ItemsOk(items)
    ensures |EncodeAll(items)| <= 17 * |items|
  {
    if items != [] { EncodedSize(items[1..]); }
  }

  lemma SetKeepsSettable(items: seq<Item>, id: Byte, value: seq<Byte>)
    requires Settable(items) && Acceptable(id, value)
    ensures Settable(SetItems(Block(items, None), id, value))
  {
  }

  lemma LayoutFits(items: seq<Item>)
    requires Settable(items) && ItemsOk(items)
    ensures |Layout(items)| <= 240
  {
    AtMostFourteen(items);
    EncodedSize(items);
  }

  /** What a call leaves is the layout of the elements it sets. */
  lemma AfterIsLayout(e: Option<Rtp.Extension>, id: Byte, value: seq<Byte>)
    requires WellFormed(e) && OutcomeOf(e, id, value) == Done
    ensures var items := SetItems(BlockOf(e), id, value);
            ItemsOk(items) && After(e, id, value) == Some(Rtp.Extension(ONE_BYTE, Layout(items)))
  {
    DecodedOk(Current(e).data, 0);
    SetItemsOk(BlockOf(e), id, value);
  }

  lemma StepFits(e: Option<Rtp.Extension>, id: Byte, value: seq<Byte>, items: seq<Item>)
    requires WellFormed(e) && Settable(BlockOf(e).items) && OutcomeOf(e, id, value) == Done
    requires items == SetItems(BlockOf(e), id, value)
    ensures var e' := After(e, id, value);
            e'.Some? && BlockOf(e').items == items && Settable(items) && |e'.value.data| <= 240
            && |e'.value.data| % 4 == 0
  {
    SetStep(e, id, value);
    AfterIsLayout(e, id, value);
    SetKeepsSettable(BlockOf(e).items, id, value);
    assert BlockOf(e) == Block(BlockOf(e).items, None);
    LayoutFits(items);
  }

  /** Built up from nothing, a block never exceeds 240 bytes and passes `validate`, so it always fits the wire. */
  lemma {:induction false} RunFits(calls: seq<Call>)
    ensures Settable(BlockOf(Run(None, calls)).items)
    ensures Run(None, calls).Some? ==> |Run(None, calls).value.data| <= 240 && |Run(None, calls).value.data| % 4 == 0
  {
    if calls != [] {
      var m := |calls| - 1;
      var before, c := Run(None, calls[..m]), calls[m];
      RunFits(calls[..m]);
      RunRefinesMap(None, calls[..m]);
      if Acceptable(c.id, c.value) { StepFits(before, c.id, c.value, SetItems(BlockOf(before), c.id, c.value)); }
    }
  }
}
