/** The payloads inside a message: their codecs and the dispatch on the type byte. */
module Payloads {
  import opened Bytes
  import opened Wrappers
  import opened Accounts
  import opened Packets
  import opened Box

  const TEXT := 0x01
  const GROUP_TEXT := 0x41
  const GROUP_MEMBERS := 0x4A
  const GROUP_TITLE := 0x4B
  const GROUP_SYNC := 0x51
  const GROUP_ICON := 0x50
  const MESSAGE_STATUS := 0x80
  const CLIENT_TYPING := 0x90
  /** Types with a codec of their own that is not modelled. */
  predicate Unmodelled(kind: Byte)
  {
    || kind == 0x02 || kind == 0x10 || 0x13 <= kind <= 0x19 || 0x42 <= kind <= 0x46
    || kind == 0x4C || kind == 0x52 || kind == 0x53
  }

  type Uid = s: seq<Byte> | |s| == 16 witness Zeros(16)
  type Blob = s: seq<Byte> | |s| == 16 witness Zeros(16)
  type OtherKind = k: Byte | Unmodelled(k) witness 0x02

  /** Whether the codec of a type that is not modelled takes a body; one it takes is kept as it is. */
  type Codecs = (OtherKind, seq<Byte>) -> bool

  datatype Payload =
    | NoPayload
    | Text(text: seq<Byte>)
    | GroupText(uid: Uid, text: seq<Byte>)
    | Members(group: Id, members: seq<Id>)
    | Title(group: Id, title: seq<Byte>)
    | Sync(group: Id)
    | GroupIcon(group: Id, blob: Blob, size: Word32, key: Key)
    | MessageStatus(status: Byte, ids: seq<Id>)
    | Typing(typing: bool)
    | Other(kind: OtherKind, body: seq<Byte>)

  function KindOf(p: Payload): Byte
  {
    match p
    case NoPayload => 0
    case Text(_) => TEXT
    case GroupText(_, _) => GROUP_TEXT
    case Members(_, _) => GROUP_MEMBERS
    case Title(_, _) => GROUP_TITLE
    case Sync(_) => GROUP_SYNC
    case GroupIcon(_, _, _, _) => GROUP_ICON
    case MessageStatus(_, _) => MESSAGE_STATUS
    case Typing(_) => CLIENT_TYPING
    case Other(kind, _) => kind
  }

  // ----- lists of ids -----

  function Joined(ids: seq<Id>): (s: seq<Byte>)
    ensures |s| == 8 * |ids|
  {
    if ids == [] then [] else Joined(ids[..|ids| - 1]) + ids[|ids| - 1]
  }

  function Split(s: seq<Byte>): (ids: seq<Id>)
    requires |s| % 8 == 0
    ensures |ids| == |s| / 8
  {
    if s == [] then [] else Split(s[..|s| - 8]) + [s[|s| - 8..]]
  }

  lemma {:induction false} SplitJoined(ids: seq<Id>)
    ensures Split(Joined(ids)) == ids
  {
    if ids != [] {
      var s := Joined(ids);
      SplitJoined(ids[..|ids| - 1]);
      assert s[..|s| - 8] == Joined(ids[..|ids| - 1]) && s[|s| - 8..] == ids[|ids| - 1];
      assert ids == ids[..|ids| - 1] + [ids[|ids| - 1]];
    }
  }

  lemma {:induction false} JoinedSplit(s: seq<Byte>)
    requires |s| % 8 == 0
    ensures Joined(Split(s)) == s
  {
    if s != [] {
      JoinedSplit(s[..|s| - 8]);
      assert Split(s)[..|Split(s)| - 1] == Split(s[..|s| - 8]);
      assert s == s[..|s| - 8] + s[|s| - 8..];
    }
  }

  /** The loop of the serializers: fixed fields, then one id after another through an advancing position. */
  method PutIds(head: seq<Byte>, ids: seq<Id>) returns (res: seq<Byte>)
    ensures res == head + Joined(ids)
  {
    var buffer := new Byte[|head| + 8 * |ids|](_ => 0);
    var pos := Copy(buffer, 0, head);
    for i := 0 to |ids|
      invariant pos == |head| + 8 * i
      invariant buffer[..pos] == head + Joined(ids[..i])
    {
      assert ids[..i + 1][..i] == ids[..i];
      pos := Copy(buffer, pos, ids[i]);
    }
    assert ids[..|ids|] == ids && buffer[..] == buffer[..pos];
    return buffer[..];
  }

  /** The loop of the deserializers. */
  method GetIds(s: seq<Byte>) returns (ids: seq<Id>)
    requires |s| % 8 == 0
    ensures ids == Split(s)
  {
    ids := [];
    for i := 0 to |s| / 8
      invariant ids == Split(s[..8 * i])
    {
      assert s[..8 * (i + 1)][..8 * i] == s[..8 * i];
      assert s[..8 * (i + 1)][8 * i..] == s[8 * i..8 * i + 8];
      ids := ids + [s[8 * i..8 * i + 8]];
    }
    assert s[..8 * (|s| / 8)] == s;
  }

  // ----- all payloads -----

  /** A group icon's size is overwritten by its key, for lack of an advance between them. */
  function Serialized(p: Payload): seq<Byte>
    requires p != NoPayload
  {
    match p
    case Text(text) => text
    case GroupText(uid, text) => uid + text
    case Members(group, members) => group + Joined(members)
    case Title(group, title) => group + title
    case Sync(group) => group
    case GroupIcon(group, blob, _, key) => group + blob + key + Zeros(4)
    case MessageStatus(status, ids) => [status] + Joined(ids)
    case Typing(typing) => if typing then [1] else [0]
    case Other(_, body) => body
  }

  /** Malformed: the source throws. PastEnd: it reads past the end of the body. */
  datatype Refusal = Malformed | PastEnd

  function Deserialized(codecs: Codecs, kind: Byte, s: seq<Byte>): Result<Payload, Refusal>
  {
    if kind == TEXT then
      if s == [] then Err(Malformed) else Ok(Text(s))
    else if kind == GROUP_TEXT then
      if |s| <= 16 then Err(Malformed) else Ok(GroupText(s[..16], s[16..]))
    else if kind == GROUP_MEMBERS then
      if |s| < 8 || (|s| - 8) % 8 != 0 then Err(Malformed) else Ok(Members(s[..8], Split(s[8..])))
    else if kind == GROUP_TITLE then
      if |s| < 8 then Err(Malformed) else Ok(Title(s[..8], s[8..]))
    else if kind == GROUP_SYNC then
      if |s| != 8 then Err(Malformed) else Ok(Sync(s))
    else if kind == GROUP_ICON then
      if |s| != 8 then Err(Malformed) else Err(PastEnd)
    else if kind == MESSAGE_STATUS then
      if s == [] || (|s| - 1) % 8 != 0 then Err(Malformed) else Ok(MessageStatus(s[0], Split(s[1..])))
    else if kind == CLIENT_TYPING then
      if |s| != 1 then Err(Malformed) else Ok(Typing(s[0] != 0))
    else if Unmodelled(kind) && codecs(kind, s) then
      Ok(Other(kind, s))
    else
      Err(Malformed)
  }

  /** Payloads that survive: a text may not be empty, and a group icon never does. */
  predicate Sendable(codecs: Codecs, p: Payload)
  {
    match p
    case NoPayload => false
    case Text(text) => text != []
    case GroupText(_, text) => text != []
    case GroupIcon(_, _, _, _) => false
    case Other(kind, body) => codecs(kind, body)
    case _ => true
  }

  // ----- payloads byte by byte -----

  /** From a position on, these ids stand behind one another up to the end. */
  predicate IdsFrom(s: seq<Byte>, at: nat, ids: seq<Id>)
  {
    |s| == at + 8 * |ids| && forall k :: 0 <= k < |ids| ==> s[at + 8 * k..at + 8 * k + 8] == ids[k]
  }

  /** These bytes are a type byte and the body of this payload. */
  predicate Laid(p: Payload, s: seq<Byte>)
  {
    match p
    case NoPayload => false
    case Text(text) => s == [0x01] + text
    case GroupText(uid, text) => s == [0x41] + uid + text
    case Members(group, members) => |s| >= 9 && s[0] == 0x4A && s[1..9] == group && IdsFrom(s, 9, members)
    case Title(group, title) => s == [0x4B] + group + title
    case Sync(group) => s == [0x51] + group
    case GroupIcon(group, blob, _, key) => s == [0x50] + group + blob + key + [0, 0, 0, 0]
    case MessageStatus(status, ids) => |s| >= 2 && s[0] == 0x80 && s[1] == status && IdsFrom(s, 2, ids)
    case Typing(typing) => s == [0x90, if typing then 1 else 0]
    case Other(kind, body) => s == [kind] + body
  }

  lemma {:induction false} JoinedAt(ids: seq<Id>, k: nat)
    requires k < |ids|
    ensures Joined(ids)[8 * k..8 * k + 8] == ids[k]
  {
    var init := ids[..|ids| - 1];
    if k < |init| {
      JoinedAt(init, k);
      assert Joined(ids)[8 * k..8 * k + 8] == Joined(init)[8 * k..8 * k + 8];
    }
  }

  lemma IdsStand(head: seq<Byte>, ids: seq<Id>)
    ensures IdsFrom(head + Joined(ids), |head|, ids)
  {
    var s, at := head + Joined(ids), |head|;
    forall k | 0 <= k < |ids|
      ensures s[at + 8 * k..at + 8 * k + 8] == ids[k]
    {
      JoinedAt(ids, k);
      assert s[at + 8 * k..at + 8 * k + 8] == Joined(ids)[8 * k..8 * k + 8];
    }
  }

  /** What is written of a payload, byte by byte. */
  lemma PayloadLaid(p: Payload)
    requires p != NoPayload
    ensures Laid(p, [KindOf(p)] + Serialized(p))
  {
    match p
    case Members(group, members) =>
      IdsStand([0x4A] + group, members);
      Assoc([0x4A], group, Joined(members));
    case MessageStatus(status, ids) =>
      IdsStand([0x80, status], ids);
      assert [0x80] + ([status] + Joined(ids)) == [0x80, status] + Joined(ids);
    case _ =>
  }

  /** The bodies that are taken, by type byte and length. */
  predicate Taken(codecs: Codecs, kind: Byte, s: seq<Byte>)
  {
    || (kind == 0x01 && s != []) || (kind == 0x41 && |s| > 16)
    || (kind == 0x4A && |s| >= 8 && |s| % 8 == 0) || (kind == 0x4B && |s| >= 8) || (kind == 0x51 && |s| == 8)
    || (kind == 0x80 && |s| % 8 == 1) || (kind == 0x90 && |s| == 1)
    || (kind in [0x02, 0x10, 0x13, 0x14, 0x15, 0x16, 0x17, 0x18, 0x19, 0x42, 0x43, 0x44, 0x45, 0x46, 0x4C, 0x52, 0x53]
        && codecs(kind, s))
  }

  lemma TakenIff(codecs: Codecs, kind: Byte, s: seq<Byte>)
    ensures Deserialized(codecs, kind, s).Ok? <==> Taken(codecs, kind, s)
    ensures Deserialized(codecs, kind, s) == Err(PastEnd) <==> kind == 0x50 && |s| == 8
  {
  }

  lemma Eights(n: nat)
    ensures 8 * n % 8 == 0
  {
  }

  lemma MembersRead(group: Id, members: seq<Id>)
    ensures var s := group + Joined(members);
      |s| >= 8 && (|s| - 8) % 8 == 0 && s[..8] == group && Split(s[8..]) == members
  {
    var s := group + Joined(members);
    Eights(|members|);
    assert |s| - 8 == 8 * |members| && s[..8] == group && s[8..] == Joined(members);
    SplitJoined(members);
  }

  lemma StatusRead(status: Byte, ids: seq<Id>)
    ensures var s := [status] + Joined(ids);
      s != [] && (|s| - 1) % 8 == 0 && s[0] == status && Split(s[1..]) == ids
  {
    var s := [status] + Joined(ids);
    Eights(|ids|);
    assert |s| - 1 == 8 * |ids| && s[1..] == Joined(ids);
    SplitJoined(ids);
  }

  lemma MembersRoundTrip(codecs: Codecs, group: Id, members: seq<Id>)
    ensures Deserialized(codecs, GROUP_MEMBERS, group + Joined(members)) == Ok(Members(group, members))
  {
    MembersRead(group, members);
  }

  lemma StatusRoundTrip(codecs: Codecs, status: Byte, ids: seq<Id>)
    ensures Deserialized(codecs, MESSAGE_STATUS, [status] + Joined(ids)) == Ok(MessageStatus(status, ids))
  {
    StatusRead(status, ids);
  }

  lemma TitleRoundTrip(codecs: Codecs, group: Id, title: seq<Byte>)
    ensures Deserialized(codecs, GROUP_TITLE, group + title) == Ok(Title(group, title))
  {
    assert (group + title)[..8] == group && (group + title)[8..] == title;
  }

  lemma GroupTextRoundTrip(codecs: Codecs, uid: Uid, text: seq<Byte>)
    ensures Deserialized(codecs, GROUP_TEXT, uid + text) == if text == [] then Err(Malformed) else Ok(GroupText(uid, text))
  {
    assert (uid + text)[..16] == uid && (uid + text)[16..] == text;
  }

  /** Reading back what was written gives the payload exactly when it is sendable, and throws otherwise. */
  lemma SerializedRoundTrip(codecs: Codecs, p: Payload)
    requires p != NoPayload
    ensures Deserialized(codecs, KindOf(p), Serialized(p)) == if Sendable(codecs, p) then Ok(p) else Err(Malformed)
  {
    match p
    case Members(group, members) => MembersRoundTrip(codecs, group, members);
    case MessageStatus(status, ids) => StatusRoundTrip(codecs, status, ids);
    case Title(group, title) => TitleRoundTrip(codecs, group, title);
    case GroupText(uid, text) => GroupTextRoundTrip(codecs, uid, text);
    case _ =>
  }

  lemma MembersWritten(s: seq<Byte>)
    requires |s| >= 8 && (|s| - 8) % 8 == 0
    ensures s[..8] + Joined(Split(s[8..])) == s
  {
    JoinedSplit(s[8..]);
  }

  lemma StatusWritten(s: seq<Byte>)
    requires s != [] && (|s| - 1) % 8 == 0
    ensures [s[0]] + Joined(Split(s[1..])) == s
  {
    JoinedSplit(s[1..]);
  }

  /** A body that can be read is written back as it was, but for a typing flag above one. */
  lemma DeserializedRoundTrip(codecs: Codecs, kind: Byte, s: seq<Byte>)
    requires Deserialized(codecs, kind, s).Ok?
    ensures var p := Deserialized(codecs, kind, s).value;
      && Sendable(codecs, p) && KindOf(p) == kind
      && (Serialized(p) == s <==> (kind == CLIENT_TYPING ==> s[0] <= 1))
  {
    match Deserialized(codecs, kind, s).value
    case Members(_, _) => MembersWritten(s);
    case MessageStatus(_, _) => StatusWritten(s);
    case GroupText(_, _) => assert s == s[..16] + s[16..];
    case Title(_, _) => assert s == s[..8] + s[8..];
    case Typing(_) => assert s == [s[0]];
    case _ =>
  }

  /** What is read of a body is what its bytes stand for; a typing flag is set by any byte but zero. */
  lemma BodyRead(codecs: Codecs, kind: Byte, s: seq<Byte>)
    requires Deserialized(codecs, kind, s).Ok?
    ensures var p := Deserialized(codecs, kind, s).value;
      if kind == 0x90 then p == Typing(s != [0]) else Laid(p, [kind] + s)
  {
    DeserializedRoundTrip(codecs, kind, s);
    PayloadLaid(Deserialized(codecs, kind, s).value);
  }

  /** Two fields behind one another. */
  method PutTwo(head: seq<Byte>, rest: seq<Byte>) returns (res: seq<Byte>)
    ensures res == head + rest
  {
    var buffer := new Byte[|head| + |rest|](_ => 0);
    var pos := Copy(buffer, 0, head);
    pos := Copy(buffer, pos, rest);
    return buffer[..];
  }

  method PutIcon(group: Id, blob: Blob, size: Word32, key: Key) returns (res: seq<Byte>)
    ensures res == group + blob + key + Zeros(4)
  {
    var buffer := new Byte[8 + 16 + 4 + 32](_ => 0);
    assert buffer[..] == Zeros(60);
    var pos := Copy(buffer, 0, group);
    assert buffer[..] == group + Zeros(52);
    pos := Copy(buffer, pos, blob);
    assert buffer[..] == group + blob + Zeros(36);
    var behind := Copy(buffer, pos, Le(size, 4));
    assert buffer[..] == group + blob + Le(size, 4) + Zeros(32);
    behind := Copy(buffer, pos, key);
    return buffer[..];
  }

  method Serialize(p: Payload) returns (r: Option<seq<Byte>>)
    ensures r == if p == NoPayload then None else Some(Serialized(p))
  {
    match p
    case NoPayload => return None;
    case Text(text) => return Some(text);
    case GroupText(uid, text) => return Some(uid + text);
    case Members(group, members) =>
      var res := PutIds(group, members);
      return Some(res);
    case Title(group, title) =>
      var res := PutTwo(group, title);
      return Some(res);
    case Sync(group) =>
      var res := PutTwo(group, []);
      assert group + [] == group;
      return Some(res);
    case GroupIcon(group, blob, size, key) =>
      var res := PutIcon(group, blob, size, key);
      return Some(res);
    case MessageStatus(status, ids) =>
      var res := PutIds([status], ids);
      return Some(res);
    case Typing(typing) => return Some([if typing then 1 else 0]);
    case Other(_, body) => return Some(body);
  }

  method Deserialize(codecs: Codecs, data: seq<Byte>) returns (r: Result<Payload, Refusal>)
    requires data != []
    ensures r == Deserialized(codecs, data[0], data[1..])
  {
    var kind, s := data[0], data[1..];
    var size := |data| - 1;
    if kind == GROUP_MEMBERS {
      if size < 8 || (size - 8) % 8 != 0 {
        return Err(Malformed);
      }
      var members := GetIds(s[8..]);
      return Ok(Members(s[..8], members));
    } else if kind == MESSAGE_STATUS {
      if size == 0 || (size - 1) % 8 != 0 {
        return Err(Malformed);
      }
      var ids := GetIds(s[1..]);
      return Ok(MessageStatus(s[0], ids));
    } else {
      return Deserialized(codecs, kind, s);
    }
  }
}
