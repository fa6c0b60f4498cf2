/** The snapshot token: `encode_cart_state` serialises a normalised snapshot,
    `hash_cart_state` tags it for the current user, and `decode_cart_state`
    checks the tag and reads the snapshot back, falling back to the empty
    snapshot on any problem. The transport text is the JSON that
    `wp_json_encode` writes for an int-keyed array of ints; the base64
    wrapping around it is not modelled (it is a reversible re-encoding). */
module Codec {
  import opened Maybe
  import opened Text
  import opened Snapshot

  /** What `json_decode($text, true)` yields for the texts modelled here:
      an array (its key/value pairs, keys and values already integers) or a
      scalar, which is not an array. */
  datatype Document = Pairs(entries: seq<Entry>) | Scalar(value: int)

  /** `"id":qty`, one member of a JSON object. */
  function MemberText(e: Entry): string {
    "\"" + IntToString(e.id) + "\":" + IntToString(e.qty)
  }

  function MembersText(es: seq<Entry>): string
    requires |es| > 0
  {
    if |es| == 1 then MemberText(es[0]) else MemberText(es[0]) + "," + MembersText(es[1..])
  }

  /** `wp_json_encode` of an int-keyed array: `[]` when empty (PHP writes an
      empty array as a list), an object of quoted ids otherwise. */
  function ToJson(es: seq<Entry>): string {
    if |es| == 0 then "[]" else "{" + MembersText(es) + "}"
  }

  /** One `"int":int` member at the start of s and the length it spans. */
  function ParseMember(s: string): (r: Option<(Entry, nat)>)
    ensures r.Some? ==> 0 < r.value.1 <= |s|
  {
    if |s| == 0 || s[0] != '"' then None
    else
      match ReadInt(s[1..])
      case None => None
      case Some(key) =>
        var n := key.1;
        if n + 2 < |s| && s[n + 1] == '"' && s[n + 2] == ':' then
          match ReadInt(s[n + 3..])
          case None => None
          case Some(val) =>
            if LeadingZero(Unsigned(s[n + 3..])) then None
            else Some((Entry(key.0, val.0), n + 3 + val.1))
        else None
  }

  /** Members separated by commas, closed by the `}` that ends the text. */
  function ParseMembers(s: string): Option<seq<Entry>>
    decreases |s|
  {
    match ParseMember(s)
    case None => None
    case Some(m) =>
      var rest := s[m.1..];
      if rest == "}" then Some([m.0])
      else if |rest| > 0 && rest[0] == ',' then
        match ParseMembers(rest[1..])
        case None => None
        case Some(es) => Some([m.0] + es)
      else None
  }

  /** `json_decode($text, true)` on the subset of JSON modelled: `[]`, an
      object of `"int":int` members, or a bare integer. Anything else does
      not decode (None), like a failing `base64_decode` or `json_decode`. */
  function ParseJson(text: string): Option<Document> {
    if text == "[]" || text == "{}" then Some(Pairs([]))
    else if |text| > 0 && text[0] == '{' then
      match ParseMembers(text[1..])
      case None => None
      case Some(es) => Some(Pairs(es))
    else
      match ReadInt(text)
      case None => None
      case Some(v) => if v.1 == |text| && !LeadingZero(Unsigned(text)) then Some(Scalar(v.0)) else None
  }

  lemma ParseMemberOfParts(s: string, k: string, v: string, rest: string, e: Entry, len: nat)
    requires s == "\"" + k + "\":" + v + rest && len == |k| + 3 + |v|
    requires ReadInt(k + ("\":" + v + rest)) == Some((e.id, |k|))
    requires ReadInt(v + rest) == Some((e.qty, |v|)) && !LeadingZero(Unsigned(v + rest))
    ensures ParseMember(s) == Some((e, len))
  {
    var n := |k|;
    assert s[1..] == k + ("\":" + v + rest);
    assert s[n + 1] == '"' && s[n + 2] == ':';
    assert s[n + 3..] == v + rest;
  }

  lemma ParseMemberOfText(e: Entry, rest: string)
    requires |rest| > 0 && (rest[0] == ',' || rest[0] == '}')
    ensures ParseMember(MemberText(e) + rest) == Some((e, |MemberText(e)|))
  {
    var k, v := IntToString(e.id), IntToString(e.qty);
    MemberTextParts(e, rest);
    ReadIntOfText(e.id, "\":" + v + rest);
    ReadIntOfText(e.qty, rest);
    JsonIntOfText(e.qty, rest);
    ParseMemberOfParts(MemberText(e) + rest, k, v, rest, e, |MemberText(e)|);
  }

  lemma MemberTextParts(e: Entry, rest: string)
    ensures MemberText(e) + rest == "\"" + IntToString(e.id) + "\":" + IntToString(e.qty) + rest
    ensures |MemberText(e)| == |IntToString(e.id)| + 3 + |IntToString(e.qty)|
  {
  }

  lemma ParseMembersLast(s: string, k: nat, e: Entry)
    requires ParseMember(s) == Some((e, k))
    requires s[k..] == "}"
    ensures ParseMembers(s) == Some([e])
  {
  }

  lemma ParseMembersCons(s: string, k: nat, e: Entry, es: seq<Entry>)
    requires ParseMember(s) == Some((e, k))
    requires k < |s| && s[k] == ','
    requires ParseMembers(s[k + 1..]) == Some(es)
    ensures ParseMembers(s) == Some([e] + es)
  {
    assert s[k..][0] == ',';
    assert s[k..][1..] == s[k + 1..];
  }

  lemma ParseMembersOfSingle(e: Entry)
    ensures ParseMembers(MemberText(e) + "}") == Some([e])
  {
    var m := MemberText(e);
    ParseMemberOfText(e, "}");
    assert (m + "}")[|m|..] == "}";
    ParseMembersLast(m + "}", |m|, e);
  }

  lemma ParseMembersOfCons(e: Entry, tail: string, es: seq<Entry>)
    requires ParseMembers(tail) == Some(es)
    ensures ParseMembers(MemberText(e) + ("," + tail)) == Some([e] + es)
  {
    var m := MemberText(e);
    ParseMemberOfText(e, "," + tail);
    ParseMembersConsOfText(m + ("," + tail), |m|, e, tail, es);
  }

  lemma ParseMembersConsOfText(s: string, k: nat, e: Entry, tail: string, es: seq<Entry>)
    requires ParseMember(s) == Some((e, k))
    requires k < |s| && s[k..] == "," + tail
    requires ParseMembers(tail) == Some(es)
    ensures ParseMembers(s) == Some([e] + es)
  {
    assert s[k] == ',' && s[k + 1..] == tail;
    ParseMembersCons(s, k, e, es);
  }

  lemma {:induction false} ParseMembersOfText(es: seq<Entry>)
    requires |es| > 0
    ensures ParseMembers(MembersText(es) + "}") == Some(es)
  {
    if |es| == 1 {
      ParseMembersOfSingle(es[0]);
      assert [es[0]] == es;
    } else {
      ParseMembersOfText(es[1..]);
      MembersTextCons(es);
      ParseMembersOfCons(es[0], MembersText(es[1..]) + "}", es[1..]);
      assert [es[0]] + es[1..] == es;
    }
  }

  lemma MembersTextCons(es: seq<Entry>)
    requires |es| > 1
    ensures MembersText(es) + "}" == MemberText(es[0]) + ("," + (MembersText(es[1..]) + "}"))
  {
    Regroup(MemberText(es[0]), MembersText(es[1..]));
  }

  lemma Regroup(a: string, b: string)
    ensures a + "," + b + "}" == a + ("," + (b + "}"))
  {
  }

  /** The JSON text of any list of entries parses back to that list. */
  lemma ParseToJson(es: seq<Entry>)
    ensures ParseJson(ToJson(es)) == Some(Pairs(es))
  {
    if |es| > 0 {
      var text := ToJson(es);
      var body := MembersText(es) + "}";
      assert text == "{" + body;
      MembersTextStart(es);
      assert text[0] == '{' && text[1..] == body;
      assert text != "[]" && text != "{}" by {
        assert text[1] == body[0] == '"';
      }
      ParseMembersOfText(es);
    }
  }

  /** A value written with a leading zero is not JSON, so the text does not
      decode. */
  lemma LeadingZeroValueRejected()
    ensures ParseJson("{\"1\":007}") == None
  {
    var t := "\"1\":007}";
    assert "{\"1\":007}"[1..] == t;
    assert ReadInt(t[1..]) == Some((1, 1)) by {
      assert t[1..] == "1\":007}";
      assert DigitRun("1\":007}") == 1;
      assert "1\":007}"[..1] == "1";
    }
    assert t[4..] == "007}";
    assert ReadInt("007}").Some? by {
      assert DigitRun("007}") == 3;
    }
    assert LeadingZero(Unsigned("007}"));
    assert ParseMember(t) == None;
  }

  /** A key is a string, and PHP's `(int)` reads "007" as 7. */
  lemma LeadingZeroKeyRead()
    ensures ParseJson("{\"007\":1}") == Some(Pairs([Entry(7, 1)]))
  {
    var t := "\"007\":1}";
    assert "{\"007\":1}"[1..] == t;
    assert ReadInt("007\":1}") == Some((7, 3)) by {
      assert DigitRun("007\":1}") == 3;
      assert "007\":1}"[..3] == "007";
      assert DigitsValue("007") == 7 by {
        assert "007"[..2] == "00" && "00"[..1] == "0" && "0"[..0] == "";
      }
    }
    assert ReadInt("1}") == Some((1, 1)) by {
      assert DigitRun("1}") == 1;
      assert "1}"[..1] == "1";
    }
    assert t == "\"" + "007" + "\":" + "1" + "}";
    assert "007" + ("\":" + "1" + "}") == "007\":1}";
    assert "1" + "}" == "1}" && !LeadingZero(Unsigned("1}"));
    ParseMemberOfParts(t, "007", "1", "}", Entry(7, 1), 7);
    assert t[7..] == "}";
    ParseMembersLast(t, 7, Entry(7, 1));
  }

  lemma MembersTextStart(es: seq<Entry>)
    requires |es| > 0
    ensures |MembersText(es)| > 1 && MembersText(es)[0] == '"'
  {
    var m := MemberText(es[0]);
    assert m[0] == '"';
    if |es| > 1 {
      assert MembersText(es) == m + "," + MembersText(es[1..]);
    }
  }

  /** PHP's `empty()` on a string: true for "" and for "0". */
  predicate IsEmptyString(s: string) {
    s == "" || s == "0"
  }

  /** `encode_cart_state`: the normalised snapshot as transport text. */
  function EncodeCartState(state: seq<Entry>): (r: string)
    ensures ParseJson(r) == Some(Pairs(NormalizeState(state)))
    ensures !IsEmptyString(r)
  {
    var es := NormalizeState(state);
    ParseToJson(es);
    ToJsonNotEmpty(es);
    ToJson(es)
  }

  lemma ToJsonNotEmpty(es: seq<Entry>)
    ensures !IsEmptyString(ToJson(es))
  {
    if |es| > 0 {
      assert ToJson(es)[0] == '{';
    }
  }

  /** `hash_cart_state`: the site's keyed hash `wpHash` (WordPress's
      `wp_hash`, left uninterpreted) of the payload, a bar and the user id. */
  function HashCartState(payload: string, userId: int, wpHash: string -> string): string {
    wpHash(HashMessage(payload, userId))
  }

  /** The text `hash_cart_state` hands to the hash: the payload, a bar, and
      the user id as PHP writes it, which `(int)` reads back. */
  function HashMessage(payload: string, userId: int): (m: string)
    ensures |m| > |payload| && m[..|payload|] == payload && m[|payload|] == '|'
    ensures PhpIntCast(m[|payload| + 1..]) == userId
  {
    var m := payload + "|" + IntToString(userId);
    assert m[|payload| + 1..] == IntToString(userId) + "";
    ParseLeadingIntOfText(userId, "");
    m
  }

  predicate NoBar(s: string) {
    forall i :: 0 <= i < |s| ==> s[i] != '|'
  }

  /** For payloads without a bar (base64 text has none) the hashed message
      determines both the payload and the user: a tag made for one user is
      a hash of a different message than any other user's tag. */
  lemma HashMessageInjective(p1: string, u1: int, p2: string, u2: int)
    requires NoBar(p1) && NoBar(p2)
    ensures HashMessage(p1, u1) == HashMessage(p2, u2) <==> p1 == p2 && u1 == u2
  {
    var m1, m2 := HashMessage(p1, u1), HashMessage(p2, u2);
    if m1 == m2 {
      if |p1| != |p2| {
        assert false;
      }
      assert p1 == m1[..|p1|] == m2[..|p2|] == p2;
    }
  }

  /** `decode_cart_state`: the snapshot a posted payload and tag stand for,
      or the empty snapshot when either is empty, the tag is not the one
      this user's hash gives, or the payload is not an encoded array. */
  function DecodeCartState(payload: string, tag: string, userId: int, wpHash: string -> string): (s: seq<Entry>)
    ensures Normalized(s)
    ensures IsEmptyString(payload) || IsEmptyString(tag) ==> s == []
    ensures tag != HashCartState(payload, userId, wpHash) ==> s == []
    ensures ParseJson(payload).None? || ParseJson(payload).value.Scalar? ==> s == []
    ensures s != [] ==> ParseJson(payload).Some? && ParseJson(payload).value.Pairs?
  {
    if IsEmptyString(payload) || IsEmptyString(tag) then []
    else if HashCartState(payload, userId, wpHash) != tag then []
    else
      match ParseJson(payload)
      case None => []
      case Some(Scalar(_)) => []
      case Some(Pairs(es)) => NormalizeState(es)
  }

  /** `cart_states_match`: strict equality (`===`) of the two snapshots,
      which on sorted snapshots is equality of contents: the same ids with
      the same quantities. */
  predicate CartStatesMatch(initial: seq<Entry>, current: seq<Entry>): (r: bool)
    ensures Sorted(initial) && Sorted(current) ==> (r <==> ToMap(initial) == ToMap(current))
  {
    SameContentsIsEqual(initial, current);
    initial == current
  }

  lemma SameContentsIsEqual(a: seq<Entry>, b: seq<Entry>)
    ensures Sorted(a) && Sorted(b) && ToMap(a) == ToMap(b) ==> a == b
  {
    if Sorted(a) && Sorted(b) && ToMap(a) == ToMap(b) {
      SortedUnique(a, b);
    }
  }

  /** Round trip: decoding a payload with the tag this user's hash gives it
      yields the normalised snapshot that was encoded. */
  lemma CodecRoundTrip(state: seq<Entry>, userId: int, wpHash: string -> string)
    requires !IsEmptyString(HashCartState(EncodeCartState(state), userId, wpHash))
    ensures var payload := EncodeCartState(state);
      DecodeCartState(payload, HashCartState(payload, userId, wpHash), userId, wpHash) == NormalizeState(state)
  {
    NormalizeStateFixed(NormalizeState(state));
  }

  /** Encoding a snapshot that is already normalised and decoding it gives
      the snapshot itself. */
  lemma CodecRoundTripNormalized(s: seq<Entry>, userId: int, wpHash: string -> string)
    requires Normalized(s)
    requires !IsEmptyString(HashCartState(EncodeCartState(s), userId, wpHash))
    ensures var payload := EncodeCartState(s);
      DecodeCartState(payload, HashCartState(payload, userId, wpHash), userId, wpHash) == s
  {
    CodecRoundTrip(s, userId, wpHash);
    NormalizeStateFixed(s);
  }

  /** Two inputs with the same contents, in whatever key order, encode to
      the same payload and hence the same tag. */
  lemma EncodeDeterministic(a: seq<Entry>, b: seq<Entry>, userId: int, wpHash: string -> string)
    requires ToMap(a) == ToMap(b)
    ensures EncodeCartState(a) == EncodeCartState(b)
    ensures HashCartState(EncodeCartState(a), userId, wpHash) == HashCartState(EncodeCartState(b), userId, wpHash)
  {
    NormalizeStateDeterministic(a, b);
  }

  /** A token that does not verify decodes to the empty snapshot, so under
      exact equality it passes the gate exactly when the live cart snapshot
      is empty. */
  lemma UntrustedTokenGate(payload: string, tag: string, userId: int, wpHash: string -> string, live: seq<Entry>)
    requires IsEmptyString(payload) || IsEmptyString(tag) || tag != HashCartState(payload, userId, wpHash)
      || ParseJson(payload).None? || ParseJson(payload).value.Scalar?
    ensures CartStatesMatch(DecodeCartState(payload, tag, userId, wpHash), live) <==> live == []
  {
  }
}
