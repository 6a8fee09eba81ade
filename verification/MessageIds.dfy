/** The opaque ids the mail API gives to messages and attachments. A Go string is a string of
    characters below 256 here. */
module MessageIds {
  import opened Text

  const SEP: char := 31 as char

  predicate Bytes(s: string) {
    forall i :: 0 <= i < |s| ==> s[i] as int < 256
  }

  // ---- base64url without padding: section 5 of RFC 4648 ----

  function Symbol(v: nat): (c: char)
    requires v < 64
    ensures ValueOf(c) == Some(v)
  {
    if v < 26 then 'A' + v as char
    else if v < 52 then 'a' + (v - 26) as char
    else if v < 62 then '0' + (v - 52) as char
    else if v == 62 then '-' else '_'
  }

  function ValueOf(c: char): (v: Option<nat>)
    ensures v.Some? ==> v.value < 64
  {
    if 'A' <= c <= 'Z' then Some(c as int - 'A' as int)
    else if 'a' <= c <= 'z' then Some(c as int - 'a' as int + 26)
    else if '0' <= c <= '9' then Some(c as int - '0' as int + 52)
    else if c == '-' then Some(62) else if c == '_' then Some(63) else None
  }

  /** The URL-safe alphabet of table 2 there: A to Z, a to z, 0 to 9, minus and underline. */
  lemma SymbolsAre(v: nat)
    requires v < 64
    ensures v < 26 ==> Symbol(v) as int == 0x41 + v
    ensures 26 <= v < 52 ==> Symbol(v) as int == 0x61 + v - 26
    ensures 52 <= v < 62 ==> Symbol(v) as int == 0x30 + v - 52
    ensures v == 62 ==> Symbol(v) == '-'
    ensures v == 63 ==> Symbol(v) == '_'
  {
  }

  predicate AreSextets(v: seq<nat>) {
    forall i :: 0 <= i < |v| ==> v[i] < 64
  }

  function One(a: char): (v: seq<nat>)
    requires a as int < 256
    ensures AreSextets(v) && |v| == 2
  {
    [a as int / 4, a as int % 4 * 16]
  }

  function Two(a: char, b: char): (v: seq<nat>)
    requires a as int < 256 && b as int < 256
    ensures AreSextets(v) && |v| == 3
  {
    [a as int / 4, a as int % 4 * 16 + b as int / 16, b as int % 16 * 4]
  }

  function Three(a: char, b: char, c: char): (v: seq<nat>)
    requires a as int < 256 && b as int < 256 && c as int < 256
    ensures AreSextets(v) && |v| == 4
  {
    [a as int / 4, a as int % 4 * 16 + b as int / 16, b as int % 16 * 4 + c as int / 64, c as int % 64]
  }

  /** The bits of a string in groups of six. */
  function Sextets(s: string): (v: seq<nat>)
    requires Bytes(s)
    ensures AreSextets(v)
  {
    if |s| == 0 then []
    else if |s| == 1 then One(s[0])
    else if |s| == 2 then Two(s[0], s[1])
    else Three(s[0], s[1], s[2]) + Sextets(s[3..])
  }

  function Symbols(v: seq<nat>): (s: string)
    requires AreSextets(v)
    ensures |s| == |v| && forall i :: 0 <= i < |v| ==> s[i] == Symbol(v[i])
  {
    seq(|v|, i requires 0 <= i < |v| => Symbol(v[i]))
  }

  function EncodeToString(s: string): string
    requires Bytes(s)
  {
    Symbols(Sextets(s))
  }

  /** The decoder skips line breaks wherever they stand. */
  function WithoutBreaks(s: string): string {
    if s == "" then "" else (if s[0] == '\r' || s[0] == '\n' then "" else [s[0]]) + WithoutBreaks(s[1..])
  }

  function Values(s: string): (r: Option<seq<nat>>)
    ensures r.Some? ==> |r.value| == |s| && AreSextets(r.value)
  {
    if s == "" then Some([])
    else
      var v, rest := ValueOf(s[0]), Values(s[1..]);
      if v.None? || rest.None? then None else Some([v.value] + rest.value)
  }

  /** Bits left over at the end are dropped unseen; a single symbol at the end is an error. */
  function Quanta(v: seq<nat>): (r: Option<string>)
    requires AreSextets(v)
  {
    if |v| == 0 then Some("")
    else if |v| == 1 then None
    else
      var a := (v[0] * 4 + v[1] / 16) as char;
      if |v| == 2 then Some([a])
      else
        var b := (v[1] % 16 * 16 + v[2] / 4) as char;
        if |v| == 3 then Some([a, b])
        else
          var c := (v[2] % 4 * 64 + v[3]) as char;
          match Quanta(v[4..])
          case None => None
          case Some(rest) => Some([a, b, c] + rest)
  }

  function DecodeString(s: string): Option<string> {
    match Values(WithoutBreaks(s))
    case None => None
    case Some(v) => Quanta(v)
  }

  predicate IsBreak(c: char) {
    c == '\r' || c == '\n'
  }

  lemma {:induction false} WithoutBreaksConcat(a: string, b: string)
    ensures WithoutBreaks(a + b) == WithoutBreaks(a) + WithoutBreaks(b)
  {
    if a == "" {
      assert a + b == b;
    } else {
      assert (a + b)[1..] == a[1..] + b;
      WithoutBreaksConcat(a[1..], b);
    }
  }

  predicate Symbolic(s: string) {
    forall i :: 0 <= i < |s| ==> IsBreak(s[i]) || ValueOf(s[i]).Some?
  }

  lemma SymbolicTail(s: string)
    requires s != ""
    ensures Symbolic(s) <==> (IsBreak(s[0]) || ValueOf(s[0]).Some?) && Symbolic(s[1..])
  {
    forall i | 1 <= i < |s|
      ensures s[i] == s[1..][i - 1]
    {
    }
  }

  lemma ValuesCons(c: char, rest: string)
    ensures Values([c] + rest).Some? <==> ValueOf(c).Some? && Values(rest).Some?
  {
    assert ([c] + rest)[0] == c && ([c] + rest)[1..] == rest;
  }

  lemma {:induction false} ValuesExactly(s: string)
    ensures Values(WithoutBreaks(s)).Some? <==> Symbolic(s)
  {
    if s != "" {
      SymbolicTail(s);
      ValuesExactly(s[1..]);
      var rest := WithoutBreaks(s[1..]);
      if IsBreak(s[0]) {
        assert WithoutBreaks(s) == rest;
      } else {
        assert WithoutBreaks(s) == [s[0]] + rest;
        ValuesCons(s[0], rest);
      }
    }
  }

  lemma QuantaShort(v: seq<nat>)
    requires AreSextets(v) && |v| < 4
    ensures Quanta(v).Some? <==> |v| != 1
  {
  }

  lemma QuantaRest(v: seq<nat>)
    requires AreSextets(v) && |v| >= 4
    ensures Quanta(v).Some? <==> Quanta(v[4..]).Some?
  {
  }

  lemma {:induction false} QuantaExactly(v: seq<nat>, groups: nat, left: nat)
    requires AreSextets(v) && |v| == 4 * groups + left && left < 4
    ensures Quanta(v).Some? <==> left != 1
    decreases groups
  {
    if groups == 0 {
      QuantaShort(v);
    } else {
      QuantaRest(v);
      QuantaExactly(v[4..], groups - 1, left);
    }
  }

  /** A text decodes exactly if it is made of symbols and line breaks and its symbols do not end with
      a single one. */
  lemma DecodesExactly(s: string)
    ensures DecodeString(s).Some? <==> Symbolic(s) && |WithoutBreaks(s)| % 4 != 1
  {
    ValuesExactly(s);
    var v := Values(WithoutBreaks(s));
    if v.Some? {
      QuantaExactly(v.value, |v.value| / 4, |v.value| % 4);
    }
  }

  /** Line breaks do not matter. */
  lemma BreaksIgnored(s: string, c: char, rest: string)
    requires IsBreak(c)
    ensures DecodeString(s + ([c] + rest)) == DecodeString(s + rest)
  {
    WithoutBreaksConcat(s, [c] + rest);
    WithoutBreaksConcat(s, rest);
    assert ([c] + rest)[0] == c && ([c] + rest)[1..] == rest;
    assert WithoutBreaks([c] + rest) == WithoutBreaks(rest);
  }

  lemma {:induction false} ValuesOfSymbols(v: seq<nat>)
    requires AreSextets(v)
    ensures Values(Symbols(v)) == Some(v) && WithoutBreaks(Symbols(v)) == Symbols(v)
  {
    if v != [] {
      assert Symbols(v)[1..] == Symbols(v[1..]);
      ValuesOfSymbols(v[1..]);
      assert v == [v[0]] + v[1..];
      assert Symbol(v[0]) != '\r' && Symbol(v[0]) != '\n' by {
        assert ValueOf('\r') == None && ValueOf('\n') == None;
      }
    }
  }

  lemma QuantumOfOne(a: char)
    requires a as int < 256
    ensures Quanta(One(a)) == Some([a])
  {
    assert a as int / 4 * 4 + a as int % 4 * 16 / 16 == a as int;
  }

  lemma QuantumOfTwo(a: char, b: char)
    requires a as int < 256 && b as int < 256
    ensures Quanta(Two(a, b)) == Some([a, b])
  {
    var x, y := a as int, b as int;
    assert x / 4 * 4 + (x % 4 * 16 + y / 16) / 16 == x;
    assert (x % 4 * 16 + y / 16) % 16 * 16 + y % 16 * 4 / 4 == y;
  }

  lemma QuantumOfThree(a: char, b: char, c: char, rest: seq<nat>)
    requires a as int < 256 && b as int < 256 && c as int < 256 && AreSextets(rest)
    ensures Quanta(rest).Some? ==> Quanta(Three(a, b, c) + rest) == Some([a, b, c] + Quanta(rest).value)
  {
    var x, y, z := a as int, b as int, c as int;
    assert x / 4 * 4 + (x % 4 * 16 + y / 16) / 16 == x;
    assert (x % 4 * 16 + y / 16) % 16 * 16 + (y % 16 * 4 + z / 64) / 4 == y;
    assert (y % 16 * 4 + z / 64) % 4 * 64 + z % 64 == z;
    assert (Three(a, b, c) + rest)[4..] == rest;
  }

  lemma {:induction false} QuantaOfSextets(s: string)
    requires Bytes(s)
    ensures Quanta(Sextets(s)) == Some(s)
    decreases |s|
  {
    if |s| == 1 {
      QuantumOfOne(s[0]);
      assert s == [s[0]];
    } else if |s| == 2 {
      QuantumOfTwo(s[0], s[1]);
      assert s == [s[0], s[1]];
    } else if |s| >= 3 {
      var rest := s[3..];
      QuantaOfSextets(rest);
      QuantumOfThree(s[0], s[1], s[2], Sextets(rest));
      assert s == [s[0], s[1], s[2]] + rest;
    }
  }

  lemma Base64RoundTrip(s: string)
    requires Bytes(s)
    ensures DecodeString(EncodeToString(s)) == Some(s)
  {
    ValuesOfSymbols(Sextets(s));
    QuantaOfSextets(s);
  }

  // ---- ids ----

  datatype MessageRef = MessageRef(folder: string, uid: int)

  datatype AttachmentRef = AttachmentRef(folder: string, uid: int, index: int)

  predicate Digits(s: string) {
    AllDigits(s) && Bytes(s)
  }

  lemma {:induction false} ItoaDigits(n: nat)
    ensures Digits(Itoa(n)) && SEP !in Itoa(n)
  {
  }

  function MessageText(folder: string, uid: nat): string {
    folder + [SEP] + Itoa(uid)
  }

  function AttachmentText(folder: string, uid: nat, index: int): string {
    folder + [SEP] + (Itoa(uid) + [SEP] + FormatInt(index))
  }

  lemma TextsAreBytes(folder: string, uid: nat, index: int)
    requires Bytes(folder)
    ensures Bytes(MessageText(folder, uid)) && Bytes(AttachmentText(folder, uid, index))
  {
    ItoaDigits(uid);
    FormatIntPlain(index);
    assert Bytes(FormatInt(index));
  }

  function EncodeMessageID(folder: string, uid: nat): string
    requires Bytes(folder)
  {
    TextsAreBytes(folder, uid, 0);
    EncodeToString(MessageText(folder, uid))
  }

  function EncodeAttachmentID(folder: string, uid: nat, index: int): string
    requires Bytes(folder)
  {
    TextsAreBytes(folder, uid, index);
    EncodeToString(AttachmentText(folder, uid, index))
  }

  function ReadMessage(raw: string): Option<MessageRef> {
    var cut := IndexOf(raw, SEP);
    if cut == |raw| then None
    else match ParseUint32(raw[cut + 1..])
      case None => None
      case Some(uid) => Some(MessageRef(raw[..cut], uid))
  }

  function ReadAttachment(raw: string): Option<AttachmentRef> {
    var parts := Split(raw, SEP);
    if |parts| != 3 then None
    else
      var uid, index := ParseUint32(parts[1]), Atoi(parts[2]);
      if uid.None? || index.None? then None
      else Some(AttachmentRef(parts[0], uid.value, index.value))
  }

  function DecodeMessageID(id: string): Option<MessageRef> {
    match DecodeString(id)
    case None => None
    case Some(raw) => ReadMessage(raw)
  }

  function DecodeAttachmentID(id: string): Option<AttachmentRef> {
    match DecodeString(id)
    case None => None
    case Some(raw) => ReadAttachment(raw)
  }

  // ---- what decoding gives back ----

  lemma {:induction false} SplitNone(s: string, c: char)
    requires c !in s
    ensures Split(s, c) == [s]
  {
  }

  function Count(s: string, c: char): nat {
    if s == "" then 0 else (if s[0] == c then 1 else 0) + Count(s[1..], c)
  }

  lemma {:induction false} CountConcat(a: string, b: string, c: char)
    ensures Count(a + b, c) == Count(a, c) + Count(b, c)
    ensures c in a ==> Count(a, c) > 0
    ensures c !in a ==> Count(a, c) == 0
  {
    if a == "" {
      assert a + b == b;
    } else {
      assert (a + b)[1..] == a[1..] + b;
      CountConcat(a[1..], b, c);
    }
  }

  lemma {:induction false} NoneCounted(s: string, c: char)
    requires c !in s
    ensures Count(s, c) == 0
  {
    if s != "" {
      NoneCounted(s[1..], c);
    }
  }

  lemma CountAfterFirst(s: string, c: char)
    requires c in s
    ensures Count(s, c) == 1 + Count(s[IndexOf(s, c) + 1..], c)
  {
    var i := IndexOf(s, c);
    NoneCounted(s[..i], c);
    CountConcat(s[..i], s[i..], c);
    assert s == s[..i] + s[i..] && s[i..][0] == c && s[i..][1..] == s[i + 1..];
  }

  lemma {:induction false} SplitLength(s: string, c: char)
    ensures |Split(s, c)| == Count(s, c) + 1
    decreases |s|
  {
    if c in s {
      CountAfterFirst(s, c);
      SplitLength(s[IndexOf(s, c) + 1..], c);
    } else {
      NoneCounted(s, c);
    }
  }

  /** Decoding a message id undoes encoding it exactly if the folder has no separator. */
  lemma MessageIDRoundTrip(folder: string, uid: nat)
    requires Bytes(folder) && uid < TWO_32
    ensures DecodeMessageID(EncodeMessageID(folder, uid)) == Some(MessageRef(folder, uid)) <==> SEP !in folder
  {
    var raw := MessageText(folder, uid);
    TextsAreBytes(folder, uid, 0);
    Base64RoundTrip(raw);
    if SEP !in folder {
      IndexOfAppend(folder, SEP, Itoa(uid));
      ItoaValue(uid);
    } else {
      var i := IndexOf(folder, SEP);
      assert raw[i] == SEP && IndexOf(raw, SEP) < |folder|;
    }
  }

  lemma NumberParts(uid: nat, index: int)
    ensures Split(Itoa(uid) + [SEP] + FormatInt(index), SEP) == [Itoa(uid), FormatInt(index)]
  {
    ItoaDigits(uid);
    FormatIntPlain(index);
    SplitNone(FormatInt(index), SEP);
    SplitAppend(Itoa(uid), SEP, FormatInt(index));
  }

  lemma PartsAdd(a: string, tail: string)
    requires SEP in a
    ensures |Split(a + [SEP] + tail, SEP)| > 1 + |Split(tail, SEP)|
  {
    SplitLength(a, SEP);
    SplitLength(tail, SEP);
    SplitLength(a + [SEP] + tail, SEP);
    CountConcat(a, [SEP], SEP);
    CountConcat([SEP], "", SEP);
    CountConcat(a + [SEP], tail, SEP);
  }

  lemma AttachmentParts(folder: string, uid: nat, index: int)
    ensures SEP !in folder ==>
      Split(AttachmentText(folder, uid, index), SEP) == [folder, Itoa(uid), FormatInt(index)]
    ensures SEP in folder ==> |Split(AttachmentText(folder, uid, index), SEP)| > 3
  {
    var tail := Itoa(uid) + [SEP] + FormatInt(index);
    assert AttachmentText(folder, uid, index) == folder + [SEP] + tail;
    NumberParts(uid, index);
    if SEP in folder {
      PartsAdd(folder, tail);
    } else {
      SplitAppend(folder, SEP, tail);
    }
  }

  /** The same for attachment ids, on any 64-bit index. */
  lemma AttachmentIDRoundTrip(folder: string, uid: nat, index: int)
    requires Bytes(folder) && uid < TWO_32 && -TWO_63 <= index < TWO_63
    ensures DecodeAttachmentID(EncodeAttachmentID(folder, uid, index)) == Some(AttachmentRef(folder, uid, index))
            <==> SEP !in folder
  {
    TextsAreBytes(folder, uid, index);
    Base64RoundTrip(AttachmentText(folder, uid, index));
    AttachmentParts(folder, uid, index);
    ItoaDigits(uid);
    ItoaValue(uid);
    AtoiFormatInt(index);
  }

  /** No text is both a message id and an attachment id. */
  lemma IdsAreDisjoint(id: string)
    ensures DecodeMessageID(id) == None || DecodeAttachmentID(id) == None
  {
    var raw := DecodeString(id);
    if raw.Some? && ReadMessage(raw.value).Some? {
      var cut := IndexOf(raw.value, SEP);
      var digits := raw.value[cut + 1..];
      assert AllDigits(digits) && SEP !in digits;
      assert raw.value == raw.value[..cut] + [SEP] + digits;
      SplitAppend(raw.value[..cut], SEP, digits);
      SplitNone(digits, SEP);
    }
  }

  /** So no attachment id decodes as a message id, whatever the folder. */
  lemma AttachmentIDIsNoMessageID(folder: string, uid: nat, index: int)
    requires Bytes(folder)
    ensures DecodeMessageID(EncodeAttachmentID(folder, uid, index)) == None
  {
    var raw := AttachmentText(folder, uid, index);
    TextsAreBytes(folder, uid, index);
    Base64RoundTrip(raw);
    var cut := IndexOf(raw, SEP);
    assert raw[|folder|] == SEP;
    var second := |folder| + 1 + |Itoa(uid)|;
    assert raw[second] == SEP;
    assert raw[cut + 1..][second - cut - 1] == SEP;
  }

  lemma TwoSplits(a: string, c: char, b: string, t: string)
    requires c !in a && c !in b && c !in t
    ensures Split(a + [c] + (b + [c] + t), c) == [a, b, t]
  {
    SplitNone(t, c);
    SplitAppend(b, c, t);
    SplitAppend(a, c, b + [c] + t);
  }

  lemma MessagePartCount(folder: string, uid: nat)
    ensures |Split(MessageText(folder, uid), SEP)| == |Split(folder, SEP)| + 1
  {
    var text := Itoa(uid);
    ItoaDigits(uid);
    SplitLength(folder, SEP);
    CountConcat(text, "", SEP);
    CountConcat(folder, [SEP], SEP);
    CountConcat([SEP], "", SEP);
    CountConcat(folder + [SEP], text, SEP);
    SplitLength(MessageText(folder, uid), SEP);
  }

  lemma SplitOnce(s: string, c: char)
    requires |Split(s, c)| == 2
    ensures var parts := Split(s, c);
            s == parts[0] + [c] + parts[1] && c !in parts[0] && c !in parts[1]
  {
    var i := IndexOf(s, c);
    var tail := s[i + 1..];
    SplitNone(tail, c);
    assert s == s[..i] + [c] + tail;
  }

  lemma Reassociate(a: string, b: string, t: string, c: char)
    ensures (a + [c] + b) + [c] + t == a + [c] + (b + [c] + t)
  {
  }

  lemma MessageParts(folder: string, uid: nat)
    requires |Split(folder, SEP)| == 2
    ensures Split(MessageText(folder, uid), SEP) == [Split(folder, SEP)[0], Split(folder, SEP)[1], Itoa(uid)]
  {
    var parts, text := Split(folder, SEP), Itoa(uid);
    ItoaDigits(uid);
    SplitOnce(folder, SEP);
    Reassociate(parts[0], parts[1], text, SEP);
    TwoSplits(parts[0], SEP, parts[1], text);
  }

  /** A message id decodes as an attachment id exactly if its folder itself reads as a folder, one
      separator and a number; never for a folder without separators. */
  lemma MessageIDAsAttachmentID(folder: string, uid: nat)
    requires Bytes(folder) && uid < TWO_32
    ensures DecodeAttachmentID(EncodeMessageID(folder, uid)).Some? <==>
            |Split(folder, SEP)| == 2 && ParseUint32(Split(folder, SEP)[1]).Some?
    ensures SEP !in folder ==> DecodeAttachmentID(EncodeMessageID(folder, uid)) == None
  {
    TextsAreBytes(folder, uid, 0);
    Base64RoundTrip(MessageText(folder, uid));
    MessagePartCount(folder, uid);
    if |Split(folder, SEP)| == 2 {
      MessageParts(folder, uid);
    }
    AtoiFormatInt(uid);
  }
}
