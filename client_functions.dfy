/**
 * The client's shared helpers (dm-project-front/src/lib/functions.ts): query strings,
 * image URLs, the cache-invalidation predicate and the error and success toasts, the last two
 * as the list of toasts they raise.
 */
module ClientFunctions {
  import opened Wrappers
  import opened Seqs
  import opened JsValues
  import opened JsObjects

  // ---------------------------------------------------------------------------------------
  // Query values
  // ---------------------------------------------------------------------------------------

  /** A value of a client query object: `string | number | boolean | number[]`, or unset. */
  datatype QVal = Undefined | Null | Str(s: string) | Number(n: int) | Bool(b: bool) | Numbers(items: seq<int>)

  type ClientQuery = Entries<QVal>

  /** `String(v)`. */
  function Text(v: QVal): string {
    match v
    case Undefined => "undefined"
    case Null => "null"
    case Str(s) => s
    case Number(n) => IntToString(n)
    case Bool(b) => if b then "true" else "false"
    case Numbers(items) => Join(IntTexts(items), ',')
  }

  function IntTexts(items: seq<int>): (r: seq<string>)
    ensures |r| == |items|
    ensures forall i :: 0 <= i < |items| ==> r[i] == IntToString(items[i])
  {
    seq(|items|, i requires 0 <= i < |items| => IntToString(items[i]))
  }

  // ---------------------------------------------------------------------------------------
  // encodeURIComponent
  // ---------------------------------------------------------------------------------------

  /** The characters `encodeURIComponent` leaves alone. */
  predicate Unreserved(c: char) {
    ('A' <= c <= 'Z') || ('a' <= c <= 'z') || ('0' <= c <= '9')
    || c == '-' || c == '_' || c == '.' || c == '!' || c == '~' || c == '*' || c == '\'' || c == '(' || c == ')'
  }

  predicate IsByte(b: int) { 0 <= b < 256 }

  /** The UTF-8 bytes of one character. */
  function Utf8(c: char): (bs: seq<int>)
    ensures 1 <= |bs| <= 4
    ensures forall i :: 0 <= i < |bs| ==> IsByte(bs[i])
    ensures (c as int) < 0x80 ==> bs == [c as int]
  {
    var cp := c as int;
    if cp < 0x80 then [cp]
    else if cp < 0x800 then [0xC0 + cp / 64, 0x80 + cp % 64]
    else if cp < 0x10000 then [0xE0 + cp / 4096, 0x80 + (cp / 64) % 64, 0x80 + cp % 64]
    else [0xF0 + cp / 262144, 0x80 + (cp / 4096) % 64, 0x80 + (cp / 64) % 64, 0x80 + cp % 64]
  }

  function Utf8Of(s: string): seq<int> {
    if s == [] then [] else Utf8(s[0]) + Utf8Of(s[1..])
  }

  /** An upper-case hexadecimal digit. */
  function HexDigit(d: nat): (c: char)
    requires d < 16
    ensures Unreserved(c)
  {
    if d < 10 then (48 + d) as char else (55 + d) as char
  }

  predicate IsHex(c: char) { ('0' <= c <= '9') || ('A' <= c <= 'F') }

  function HexValue(c: char): nat
    requires IsHex(c)
  {
    if c <= '9' then c as int - 48 else c as int - 55
  }

  lemma HexRoundTrip(d: nat)
    requires d < 16
    ensures IsHex(HexDigit(d)) && HexValue(HexDigit(d)) == d
  {
  }

  /** `%XY` for each byte. */
  function PercentBytes(bs: seq<int>): (r: string)
    requires forall i :: 0 <= i < |bs| ==> IsByte(bs[i])
    ensures |r| == 3 * |bs|
    ensures forall i :: 0 <= i < |r| ==> Unreserved(r[i]) || r[i] == '%'
  {
    if bs == [] then []
    else
      var b := bs[0];
      assert IsByte(b);
      assert 0 <= b / 16 < 16 && 0 <= b % 16 < 16;
      ['%', HexDigit(b / 16), HexDigit(b % 16)] + PercentBytes(bs[1..])
  }

  function EncodeChar(c: char): (r: string)
    ensures forall i :: 0 <= i < |r| ==> Unreserved(r[i]) || r[i] == '%'
  {
    if Unreserved(c) then [c] else PercentBytes(Utf8(c))
  }

  /** `encodeURIComponent`: unreserved characters as they are, every other one as its UTF-8 bytes in `%XY` form. */
  function EncodeComponent(s: string): (r: string)
    ensures forall i :: 0 <= i < |r| ==> Unreserved(r[i]) || r[i] == '%'
    ensures (forall i :: 0 <= i < |s| ==> Unreserved(s[i])) ==> r == s
  {
    if s == [] then []
    else
      var r := EncodeChar(s[0]) + EncodeComponent(s[1..]);
      assert forall i :: 0 <= i < |r| ==> Unreserved(r[i]) || r[i] == '%' by {
        var h := EncodeChar(s[0]);
        forall i | 0 <= i < |r| ensures Unreserved(r[i]) || r[i] == '%' {
          if i >= |h| { assert r[i] == EncodeComponent(s[1..])[i - |h|]; }
        }
      }
      r
  }

  /** Percent-decoding to bytes; `None` for a stray `%` or a character that should have been escaped. */
  function DecodeBytes(r: string): Option<seq<int>> {
    if r == [] then Some([])
    else if r[0] == '%' then
      if |r| >= 3 && IsHex(r[1]) && IsHex(r[2]) then
        match DecodeBytes(r[3..])
        case Some(rest) => Some([HexValue(r[1]) * 16 + HexValue(r[2])] + rest)
        case None => None
      else None
    else if Unreserved(r[0]) then
      match DecodeBytes(r[1..])
      case Some(rest) => Some([r[0] as int] + rest)
      case None => None
    else None
  }

  lemma {:induction false} DecodePercentBytes(bs: seq<int>, tail: string, rest: seq<int>)
    requires forall i :: 0 <= i < |bs| ==> IsByte(bs[i])
    requires DecodeBytes(tail) == Some(rest)
    ensures DecodeBytes(PercentBytes(bs) + tail) == Some(bs + rest)
  {
    if bs != [] {
      var b := bs[0];
      var more := PercentBytes(bs[1..]) + tail;
      DecodePercentBytes(bs[1..], tail, rest);
      assert IsByte(b) && 0 <= b / 16 < 16;
      var escape := ['%', HexDigit(b / 16), HexDigit(b % 16)];
      assert PercentBytes(bs) == escape + PercentBytes(bs[1..]);
      AppendAssoc(escape, PercentBytes(bs[1..]), tail);
      DecodeEscape(b, more, bs[1..] + rest);
      ConsAppend(bs, rest);
    } else {
      assert PercentBytes(bs) + tail == tail;
      assert bs + rest == rest;
    }
  }

  /** One `%XY` escape decodes to its byte, ahead of whatever the rest decodes to. */
  lemma DecodeEscape(b: int, more: string, rest: seq<int>)
    requires IsByte(b) && DecodeBytes(more) == Some(rest)
    ensures 0 <= b / 16 < 16 && 0 <= b % 16 < 16
    ensures DecodeBytes(['%', HexDigit(b / 16), HexDigit(b % 16)] + more) == Some([b] + rest)
  {
    var hi, lo := b / 16, b % 16;
    assert 0 <= hi < 16 && 0 <= lo < 16;
    HexRoundTrip(hi);
    HexRoundTrip(lo);
    var r := ['%', HexDigit(hi), HexDigit(lo)] + more;
    assert r[3..] == more;
    assert hi * 16 + lo == b;
  }

  /** Decoding an encoded component gives back the UTF-8 bytes of the text. */
  lemma {:induction false} DecodeEncode(s: string)
    ensures DecodeBytes(EncodeComponent(s)) == Some(Utf8Of(s))
  {
    if s != [] {
      DecodeEncode(s[1..]);
      var tail := EncodeComponent(s[1..]);
      if Unreserved(s[0]) {
        assert ([s[0]] + tail)[1..] == tail;
      } else {
        DecodePercentBytes(Utf8(s[0]), tail, Utf8Of(s[1..]));
      }
    }
  }

  // ---------------------------------------------------------------------------------------
  // buildQueryString
  // ---------------------------------------------------------------------------------------

  /** An entry is sent unless its value is `undefined` or the empty string. */
  predicate Sent(e: (string, QVal)) {
    e.1 != Undefined && e.1 != Str("")
  }

  function PairText(key: string, value: string): string {
    EncodeComponent(key) + "=" + EncodeComponent(value)
  }

  function ItemPairs(key: string, items: seq<int>): (r: seq<string>)
    ensures |r| == |items|
    ensures forall i :: 0 <= i < |items| ==> r[i] == PairText(key, IntToString(items[i]))
  {
    seq(|items|, i requires 0 <= i < |items| => PairText(key, IntToString(items[i])))
  }

  /** An array gives one pair per element, any other value one pair. */
  function EntryPairs(e: (string, QVal)): seq<string> {
    if e.1.Numbers? then ItemPairs(e.0, e.1.items) else [PairText(e.0, Text(e.1))]
  }

  function Pairs(params: ClientQuery): seq<string> {
    if params == [] then []
    else (if Sent(params[0]) then EntryPairs(params[0]) else []) + Pairs(params[1..])
  }

  /** `parts.join(sep)`. */
  function Join(parts: seq<string>, sep: char): string {
    if parts == [] then "" else if |parts| == 1 then parts[0] else parts[0] + [sep] + Join(parts[1..], sep)
  }

  function BuildQueryString(params: ClientQuery): string {
    Join(Pairs(params), '&')
  }

  function FirstIndex(s: string, c: char): (i: nat)
    requires c in s
    ensures i < |s| && s[i] == c && c !in s[..i]
  {
    if s[0] == c then 0 else 1 + FirstIndex(s[1..], c)
  }

  /** `s.split(sep)` for a one-character separator. */
  function Split(s: string, sep: char): (r: seq<string>)
    ensures |r| >= 1
    decreases |s|
  {
    if sep !in s then [s]
    else
      var i := FirstIndex(s, sep);
      [s[..i]] + Split(s[i + 1..], sep)
  }

  /** Splitting a join recovers the parts when no part holds the separator. */
  lemma {:induction false} SplitJoin(parts: seq<string>, sep: char)
    requires parts != []
    requires forall i :: 0 <= i < |parts| ==> sep !in parts[i]
    ensures Split(Join(parts, sep), sep) == parts
  {
    if |parts| > 1 {
      var s := Join(parts, sep);
      var p := parts[0];
      SplitJoin(parts[1..], sep);
      assert s == p + [sep] + Join(parts[1..], sep);
      assert s[|p|] == sep && s[..|p|] == p;
      FirstIndexAt(s, sep, |p|);
      assert s[|p| + 1..] == Join(parts[1..], sep);
    }
  }

  lemma {:induction false} FirstIndexAt(s: string, c: char, i: nat)
    requires i < |s| && s[i] == c && c !in s[..i]
    ensures FirstIndex(s, c) == i
  {
    if s[0] != c {
      assert s[1..][..i - 1] == s[..i][1..];
      FirstIndexAt(s[1..], c, i - 1);
    }
  }

  lemma EncodedHasNo(s: string, c: char)
    requires !Unreserved(c) && c != '%'
    ensures c !in EncodeComponent(s)
  {
  }

  /** A pair splits at its one `=` into the encoded key and the encoded value. */
  lemma SplitPair(key: string, value: string)
    ensures '&' !in PairText(key, value)
    ensures Split(PairText(key, value), '=') == [EncodeComponent(key), EncodeComponent(value)]
  {
    EncodedHasNo(key, '&');
    EncodedHasNo(value, '&');
    EncodedHasNo(key, '=');
    EncodedHasNo(value, '=');
    SplitJoin([EncodeComponent(key), EncodeComponent(value)], '=');
    assert Join([EncodeComponent(key), EncodeComponent(value)], '=') == PairText(key, value);
  }

  lemma {:induction false} PairsHaveNoAmpersand(params: ClientQuery)
    ensures forall i :: 0 <= i < |Pairs(params)| ==> '&' !in Pairs(params)[i]
  {
    if params != [] {
      PairsHaveNoAmpersand(params[1..]);
      var head := if Sent(params[0]) then EntryPairs(params[0]) else [];
      if Sent(params[0]) {
        EntryPairsHaveNoAmpersand(params[0]);
      }
      var tail := Pairs(params[1..]);
      assert Pairs(params) == head + tail;
      forall i | 0 <= i < |head + tail| ensures '&' !in (head + tail)[i] {
        if i < |head| {
          assert (head + tail)[i] == head[i];
        } else {
          assert (head + tail)[i] == tail[i - |head|];
        }
      }
    }
  }

  lemma EntryPairsHaveNoAmpersand(e: (string, QVal))
    ensures forall i :: 0 <= i < |EntryPairs(e)| ==> '&' !in EntryPairs(e)[i]
  {
    if e.1.Numbers? {
      forall i | 0 <= i < |e.1.items| ensures '&' !in EntryPairs(e)[i] {
        SplitPair(e.0, IntToString(e.1.items[i]));
      }
    } else {
      SplitPair(e.0, Text(e.1));
    }
  }

  /**
   * The query string reads back, split at `&`, as exactly the pairs of the sent entries in
   * order; with nothing sent it is empty.
   */
  lemma QueryStringParts(params: ClientQuery)
    ensures Pairs(params) == [] ==> BuildQueryString(params) == ""
    ensures Pairs(params) != [] ==> Split(BuildQueryString(params), '&') == Pairs(params)
  {
    if Pairs(params) != [] {
      PairsHaveNoAmpersand(params);
      SplitJoin(Pairs(params), '&');
    }
  }

  /** Entries that are not sent contribute nothing; a sent array contributes one pair per element. */
  lemma {:induction false} PairsCount(params: ClientQuery)
    ensures |Pairs(params)| == |Filter(params, SentScalar)| + ItemCount(params)
  {
    if params != [] {
      PairsCount(params[1..]);
    }
  }

  predicate SentScalar(e: (string, QVal)) { Sent(e) && !e.1.Numbers? }

  /** The number of elements of the sent arrays. */
  function ItemCount(params: ClientQuery): nat {
    if params == [] then 0
    else (if params[0].1.Numbers? then |params[0].1.items| else 0) + ItemCount(params[1..])
  }

  // ---------------------------------------------------------------------------------------
  // imageSrc
  // ---------------------------------------------------------------------------------------

  const Placeholder: string := "/images/placeholder.svg"

  predicate IsUnsplash(url: string) {
    StartsWith(url, "https://images.unsplash.com/") || StartsWith(url, "https://unsplash.com/")
    || StartsWith(url, "https://plus.unsplash.com/")
  }

  /** The placeholder for no image, Unsplash URLs as they are, anything else under `imageBase`. */
  function ImageSrc(image: Option<string>, imageBase: string): (r: string)
    ensures !Truthy(image) ==> r == Placeholder
    ensures Truthy(image) ==> |r| >= |image.value| && r[|r| - |image.value|..] == image.value
    ensures Truthy(image) && IsUnsplash(image.value) ==> r == image.value
    ensures Truthy(image) && !IsUnsplash(image.value) ==> StartsWith(r, imageBase) && r == imageBase + image.value
  {
    if !Truthy(image) then Placeholder
    else if IsUnsplash(image.value) then image.value
    else
      var r := imageBase + image.value;
      assert r[..|imageBase|] == imageBase;
      r
  }

  // ---------------------------------------------------------------------------------------
  // invalidateQueries
  // ---------------------------------------------------------------------------------------

  /** The first element of a query key: a name, or a list of names. */
  datatype KeyHead = KeyName(name: string) | KeyNames(names: seq<string>)

  /** The invalidation predicate: a name containing `name`, or a list with such an element. */
  predicate Invalidates(head: KeyHead, name: string) {
    match head
    case KeyName(s) => s == name || Contains(s, name)
    case KeyNames(names) => exists i :: 0 <= i < |names| && Contains(names[i], name)
  }

  /** A key is invalidated exactly when its name, or one of its names, contains `name`. */
  lemma InvalidatesMeaning(head: KeyHead, name: string)
    ensures head.KeyName? ==> (Invalidates(head, name) <==> Contains(head.name, name))
    ensures head.KeyNames? ==> (Invalidates(head, name) <==> exists s :: s in head.names && Contains(s, name))
  {
    if head.KeyName? && head.name == name {
      assert OccursAt(name, name, 0) by { assert name[0..|name|] == name; }
    }
    if head.KeyNames? && Invalidates(head, name) {
      var i :| 0 <= i < |head.names| && Contains(head.names[i], name);
      assert head.names[i] in head.names;
    }
  }

  // ---------------------------------------------------------------------------------------
  // Toasts
  // ---------------------------------------------------------------------------------------

  datatype Toast = Toast(title: string, description: string, alertType: string)

  /** An element of an array `message`: a string or a validation item. */
  datatype MessageItem = MsgText(text: string) | MsgItem(field: string, messages: seq<string>)

  /** The `message` of an error response. */
  datatype ErrorMessage =
    | NoMessage
    | MessageText(text: string)
    | MessageArray(items: seq<MessageItem>)
    | MessageFields(fields: Entries<string>)

  predicate AllTexts(items: seq<MessageItem>) {
    forall i :: 0 <= i < |items| ==> items[i].MsgText?
  }

  predicate AllValidation(items: seq<MessageItem>) {
    forall i :: 0 <= i < |items| ==> items[i].MsgItem?
  }

  function ErrorToast(title: string, description: string): Toast {
    Toast(title, description, "error")
  }

  /** One "Error" toast per string. */
  function TextToasts(items: seq<MessageItem>): (r: seq<Toast>)
    requires AllTexts(items)
    ensures |r| == |items|
  {
    if items == [] then [] else TextToasts(items[..|items| - 1]) + [ErrorToast("Error", items[|items| - 1].text)]
  }

  /** One toast per message, titled with the field. */
  function FieldToasts(field: string, messages: seq<string>): (r: seq<Toast>)
    ensures |r| == |messages|
  {
    if messages == [] then [] else FieldToasts(field, messages[..|messages| - 1]) + [ErrorToast(field, messages[|messages| - 1])]
  }

  function ItemToasts(items: seq<MessageItem>): seq<Toast>
    requires AllValidation(items)
  {
    if items == [] then []
    else
      var last := items[|items| - 1];
      ItemToasts(items[..|items| - 1]) + FieldToasts(last.field, last.messages)
  }

  /** `String(value)` of an array element. */
  function ItemText(item: MessageItem): string {
    if item.MsgText? then item.text else "[object Object]"
  }

  /** `Object.entries` of an array: its indices as keys. */
  function IndexToasts(items: seq<MessageItem>): (r: seq<Toast>)
    ensures |r| == |items|
  {
    if items == [] then []
    else IndexToasts(items[..|items| - 1]) + [ErrorToast(IntToString(|items| - 1), ItemText(items[|items| - 1]))]
  }

  function EntryToasts(fields: Entries<string>): (r: seq<Toast>)
    ensures |r| == |fields|
  {
    if fields == [] then []
    else EntryToasts(fields[..|fields| - 1]) + [ErrorToast(fields[|fields| - 1].0, fields[|fields| - 1].1)]
  }

  /** The toasts `generateNestErrors` raises, in order. */
  function NestErrorToasts(data: Option<ErrorMessage>): seq<Toast> {
    match data
    case None => []
    case Some(NoMessage) => []
    case Some(MessageText(s)) => if s == "" then [] else [ErrorToast("Error", s)]
    case Some(MessageArray(items)) =>
      if AllTexts(items) then TextToasts(items)
      else if AllValidation(items) then ItemToasts(items)
      else IndexToasts(items)
    case Some(MessageFields(fields)) => EntryToasts(fields)
  }

  /** `generateNestErrors`: raises the toasts one by one. */
  method GenerateNestErrors(data: Option<ErrorMessage>) returns (toasts: seq<Toast>)
    ensures toasts == NestErrorToasts(data)
  {
    toasts := [];
    if data.None? || data.value.NoMessage? {
      return;
    }
    match data.value {
      case MessageText(s) =>
        if s != "" {
          toasts := toasts + [ErrorToast("Error", s)];
        }
      case MessageArray(items) =>
        if AllTexts(items) {
          toasts := RaiseTextToasts(items);
        } else if AllValidation(items) {
          toasts := RaiseItemToasts(items);
        } else {
          toasts := RaiseIndexToasts(items);
        }
      case MessageFields(fields) =>
        toasts := RaiseEntryToasts(fields);
    }
  }

  /** An array of strings: one "Error" toast each. */
  method RaiseTextToasts(items: seq<MessageItem>) returns (toasts: seq<Toast>)
    requires AllTexts(items)
    ensures toasts == TextToasts(items)
  {
    toasts := [];
    for i := 0 to |items|
      invariant toasts == TextToasts(items[..i])
    {
      ghost var done := items[..i + 1];
      assert done[..i] == items[..i] && done[i] == items[i];
      toasts := toasts + [ErrorToast("Error", items[i].text)];
    }
    assert items[..|items|] == items;
  }

  /** An array of validation errors: one toast per message, titled with the field. */
  method RaiseItemToasts(items: seq<MessageItem>) returns (toasts: seq<Toast>)
    requires AllValidation(items)
    ensures toasts == ItemToasts(items)
  {
    toasts := [];
    for i := 0 to |items|
      invariant toasts == ItemToasts(items[..i])
    {
      var item := items[i];
      var more := RaiseFieldToasts(item.field, item.messages);
      ghost var done := items[..i + 1];
      assert done[..i] == items[..i] && done[i] == item;
      toasts := toasts + more;
    }
    assert items[..|items|] == items;
  }

  /** The inner `forEach` over one field's messages. */
  method RaiseFieldToasts(field: string, messages: seq<string>) returns (toasts: seq<Toast>)
    ensures toasts == FieldToasts(field, messages)
  {
    toasts := [];
    for j := 0 to |messages|
      invariant toasts == FieldToasts(field, messages[..j])
    {
      ghost var done := messages[..j + 1];
      assert done[..j] == messages[..j] && done[j] == messages[j];
      toasts := toasts + [ErrorToast(field, messages[j])];
    }
    assert messages[..|messages|] == messages;
  }

  /** Any other array: its elements as text, titled with their indices. */
  method RaiseIndexToasts(items: seq<MessageItem>) returns (toasts: seq<Toast>)
    ensures toasts == IndexToasts(items)
  {
    toasts := [];
    for i := 0 to |items|
      invariant toasts == IndexToasts(items[..i])
    {
      ghost var done := items[..i + 1];
      assert done[..i] == items[..i] && done[i] == items[i] && |done| - 1 == i;
      toasts := toasts + [ErrorToast(IntToString(i), ItemText(items[i]))];
    }
    assert items[..|items|] == items;
  }

  /** An object: one toast per entry, titled with its key. */
  method RaiseEntryToasts(fields: Entries<string>) returns (toasts: seq<Toast>)
    ensures toasts == EntryToasts(fields)
  {
    toasts := [];
    for i := 0 to |fields|
      invariant toasts == EntryToasts(fields[..i])
    {
      ghost var done := fields[..i + 1];
      assert done[..i] == fields[..i] && done[i] == fields[i];
      toasts := toasts + [ErrorToast(fields[i].0, fields[i].1)];
    }
    assert fields[..|fields|] == fields;
  }

  /** Every validation message gives exactly one toast, titled with its field, in order. */
  lemma {:induction false} ItemToastsMeaning(items: seq<MessageItem>)
    requires AllValidation(items)
    ensures |ItemToasts(items)| == MessageCount(items)
    ensures forall t :: t in ItemToasts(items) ==>
      t.alertType == "error" && exists i :: 0 <= i < |items| && t.title == items[i].field && t.description in items[i].messages
  {
    if items != [] {
      var init := items[..|items| - 1];
      var last := items[|items| - 1];
      ItemToastsMeaning(init);
      FieldToastsMeaning(last.field, last.messages);
      forall t | t in ItemToasts(items)
        ensures t.alertType == "error" && exists i :: 0 <= i < |items| && t.title == items[i].field && t.description in items[i].messages
      {
        if t in ItemToasts(init) {
          var i :| 0 <= i < |init| && t.title == init[i].field && t.description in init[i].messages;
          assert items[i] == init[i];
        } else {
          assert t in FieldToasts(last.field, last.messages);
        }
      }
    }
  }

  lemma {:induction false} FieldToastsMeaning(field: string, messages: seq<string>)
    ensures forall t :: t in FieldToasts(field, messages) ==> t.alertType == "error" && t.title == field && t.description in messages
  {
    if messages != [] {
      FieldToastsMeaning(field, messages[..|messages| - 1]);
      assert forall m :: m in messages[..|messages| - 1] ==> m in messages;
    }
  }

  function MessageCount(items: seq<MessageItem>): nat
    requires AllValidation(items)
  {
    if items == [] then 0 else MessageCount(items[..|items| - 1]) + |items[|items| - 1].messages|
  }

  /** A `message` array of strings raises one toast per string, with that string, in order. */
  lemma {:induction false} TextToastsMeaning(items: seq<MessageItem>, i: nat)
    requires AllTexts(items) && i < |items|
    ensures TextToasts(items)[i] == ErrorToast("Error", items[i].text)
  {
    if i < |items| - 1 {
      TextToastsMeaning(items[..|items| - 1], i);
    }
  }

  /** A message of one kind: a string or a number. */
  datatype SuccessMessage = SuccessText(text: string) | SuccessNumber(n: int)

  /** `message == 1` with JavaScript's loose equality: the number 1 or a string reading as 1. */
  predicate LooselyOne(message: Option<SuccessMessage>) {
    match message
    case None => false
    case Some(SuccessNumber(n)) => n == 1
    case Some(SuccessText(s)) => ToNumber(s) == Num(1)
  }

  predicate MessageTruthy(message: Option<SuccessMessage>) {
    match message
    case None => false
    case Some(SuccessNumber(n)) => n != 0
    case Some(SuccessText(s)) => s != ""
  }

  function SuccessTitle(lang: string): string {
    if lang == "en" then "Success" else if lang == "ar" then "نجاح" else "سەرکەوتوو"
  }

  function DefaultSuccessText(lang: string): string {
    if lang == "en" then "Operation Success" else if lang == "ar" then "العملیة تمت بنجاح" else "کرادەرەکە سەرکەوتووبوو"
  }

  function MessageDescription(message: SuccessMessage): string {
    match message
    case SuccessText(s) => s
    case SuccessNumber(n) => IntToString(n)
  }

  /** `generateMutationSuccessToast`: the toast it raises, if any. */
  function SuccessToast(lang: string, message: Option<SuccessMessage>): Option<Toast> {
    if LooselyOne(message) then None
    else if MessageTruthy(message) then Some(Toast(SuccessTitle(lang), MessageDescription(message.value), "success"))
    else Some(Toast(SuccessTitle(lang), DefaultSuccessText(lang), "success"))
  }

  /**
   * The toast is suppressed exactly when the message is loosely 1; otherwise it is a success
   * toast carrying the message, or the language's default text when there is no message.
   */
  lemma SuccessToastMeaning(lang: string, message: Option<SuccessMessage>)
    ensures SuccessToast(lang, message).None? <==> LooselyOne(message)
    ensures SuccessToast(lang, message).Some? ==> SuccessToast(lang, message).value.alertType == "success"
    ensures message.None? ==> SuccessToast(lang, message) == Some(Toast(SuccessTitle(lang), DefaultSuccessText(lang), "success"))
    ensures SuccessToast(lang, Some(SuccessText("1"))).None?
  {
    assert TrimStart("1") == "1";
    assert TrimEnd("1") == "1";
    assert SplitSign("1") == (false, "1");
    assert DigitsValue("1") == 1;
  }
}
