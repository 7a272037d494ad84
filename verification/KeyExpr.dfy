/**
 The key expressions zenbedded_transport/src/zenoh_transport.c prints in Tier 1, and how a
 listener takes a liveliness key apart again.
 */
module KeyExpr {
  import opened Bytes

  // ---- printing ------------------------------------------------------------------------------

  /** A lower-case hexadecimal digit. */
  function Digit(d: nat): (c: char)
    requires d < 16
    ensures DigitValue(c) == d && c != '/'
  {
    if d < 10 then ('0' as int + d) as char else ('a' as int + d - 10) as char
  }

  function DigitValue(c: char): nat {
    if '0' <= c <= '9' then c as int - '0' as int
    else if 'a' <= c <= 'f' then c as int - 'a' as int + 10
    else 0
  }

  /** %u */
  function Decimal(n: nat): (s: string)
    ensures |s| >= 1 && '/' !in s
  {
    if n < 10 then [Digit(n)] else Decimal(n / 10) + [Digit(n % 10)]
  }

  /** %02x for every byte. */
  function Hex(bytes: seq<byte>): (s: string)
    ensures |s| == 2 * |bytes| && '/' !in s
  {
    if bytes == [] then ""
    else
      var b: int := bytes[|bytes| - 1];
      Hex(bytes[..|bytes| - 1]) + [Digit(b / 16), Digit(b % 16)]
  }

  /** What snprintf leaves in a buffer of the given size. */
  function Snprintf(size: nat, s: string): string
    requires size >= 1
  {
    if |s| < size then s else s[..size - 1]
  }

  function StripSlash(topic: string): string {
    if topic != "" && topic[0] == '/' then topic[1..] else topic
  }

  function Replaced(s: string, from: char, to: char): (r: string)
    ensures |r| == |s| && forall i :: 0 <= i < |s| ==> r[i] == if s[i] == from then to else s[i]
  {
    seq<char>(|s|, (i: nat) requires i < |s| => if s[i] == from then to else s[i])
  }

  /** mangle_topic into a buffer of the given size. */
  function Mangled(size: nat, topic: string): string
    requires size >= 1
  {
    Replaced(Snprintf(size, StripSlash(topic)), '/', '%')
  }

  /** The characters before the first NUL. */
  function UntilNul(s: string): string {
    if s == "" || s[0] == '\0' then "" else [s[0]] + UntilNul(s[1..])
  }

  lemma {:induction false} UntilNulIs(s: string, n: nat)
    requires n < |s| && s[n] == '\0' && forall i :: 0 <= i < n ==> s[i] != '\0'
    ensures UntilNul(s) == s[..n]
  {
    if n > 0 {
      UntilNulIs(s[1..], n - 1);
      assert s[..n] == [s[0]] + s[1..][..n - 1];
    }
  }

  /** mangle_topic; the source has no embedded NUL. */
  method MangleTopic(dst: array<char>, src: string)
    requires dst.Length >= 1 && '\0' !in src
    modifies dst
    ensures UntilNul(dst[..]) == Mangled(dst.Length, src)
  {
    var s := StripSlash(src);
    var i := 0;
    while i < dst.Length - 1 && i < |s|
      invariant i <= |s| && i <= dst.Length - 1
      invariant forall j :: 0 <= j < i ==> dst[j] == if s[j] == '/' then '%' else s[j]
    {
      dst[i] := if s[i] == '/' then '%' else s[i];
      i := i + 1;
    }
    dst[i] := '\0';
    UntilNulIs(dst[..], i);
    assert dst[..][..i] == Mangled(dst.Length, src);
  }

  datatype Entity = Entity(
    domain: uint32, zid: seq<byte>, kind: string, node: string, topic: string, typeName: string, hash: string)

  /** "%u/%s/%s/%s" with the topic already stripped once. */
  function TopicKey(e: Entity): string {
    Decimal(e.domain) + "/" + StripSlash(e.topic) + "/" + e.typeName + "/" + e.hash
  }

  /** The node token. */
  function NodeKey(domain: uint32, zid: seq<byte>, node: string): string {
    "@ros2_lv/" + Decimal(domain) + "/" + Hex(zid) + "/0/0/NN/%/%/" + node
  }

  /** The token of a publisher (kind MP) or subscriber (kind MS), the stripped topic mangled into
      a buffer of maxTopic bytes. */
  function LivelinessKey(maxTopic: nat, e: Entity): string
    requires maxTopic >= 1
  {
    var tail := e.typeName + "/" + e.hash + "/::,7:,:,:,,";
    var rest := e.node + "/%" + Mangled(maxTopic, StripSlash(e.topic)) + "/" + tail;
    "@ros2_lv/" + Decimal(e.domain) + "/" + Hex(e.zid) + "/0/10/" + e.kind + "/%/%/" + rest
  }

  // ---- the keys fit --------------------------------------------------------------------------

  const LV_NODE_FIXED_OVERHEAD := 54
  const LV_PUB_SUB_FIXED_OVERHEAD := 71
  const TOPIC_KEYEXPR_FIXED_OVERHEAD := 3
  const MAX_DOMAIN_ID_DIGITS := 10
  const RIHS01_TYPE_HASH_LEN := 71

  function Pow10(k: nat): (p: nat)
    ensures p >= 1
  {
    if k == 0 then 1 else 10 * Pow10(k - 1)
  }

  lemma {:induction false} DecimalLength(n: nat, k: nat)
    requires k >= 1 && n < Pow10(k)
    ensures |Decimal(n)| <= k
  {
    if n >= 10 {
      assert k >= 2;
      DecimalLength(n / 10, k - 1);
    }
  }

  lemma DomainDigits(domain: uint32)
    ensures |Decimal(domain)| <= MAX_DOMAIN_ID_DIGITS
  {
    assert Pow10(4) == 10_000 && Pow10(8) == 100_000_000 && Pow10(10) == 10_000_000_000;
    DecimalLength(domain, 10);
  }

  /** For every domain number and names within the configured buffer lengths, none of the three
      keys is cut short by its buffer. */
  lemma KeysFit(maxNode: nat, maxTopic: nat, maxType: nat, e: Entity)
    requires |e.zid| == 16 && |e.kind| == 2 && |e.hash| == RIHS01_TYPE_HASH_LEN
    requires |e.node| < maxNode && |e.topic| < maxTopic && |e.typeName| < maxType
    ensures var size := TOPIC_KEYEXPR_FIXED_OVERHEAD + MAX_DOMAIN_ID_DIGITS + maxTopic + maxType
                        + RIHS01_TYPE_HASH_LEN + 1;
      Snprintf(size, TopicKey(e)) == TopicKey(e)
    ensures var size := LV_PUB_SUB_FIXED_OVERHEAD + MAX_DOMAIN_ID_DIGITS + maxNode + maxTopic + maxType
                        + RIHS01_TYPE_HASH_LEN + 1;
      Snprintf(size, LivelinessKey(maxTopic, e)) == LivelinessKey(maxTopic, e)
    ensures var size := LV_NODE_FIXED_OVERHEAD + MAX_DOMAIN_ID_DIGITS + maxNode + 1;
      Snprintf(size, NodeKey(e.domain, e.zid, e.node)) == NodeKey(e.domain, e.zid, e.node)
  {
    DomainDigits(e.domain);
  }

  // ---- taking a key apart --------------------------------------------------------------------

  function Split(s: string): (parts: seq<string>)
    ensures |parts| >= 1
  {
    if s == "" then [""]
    else
      var rest := Split(s[1..]);
      if s[0] == '/' then [""] + rest else [[s[0]] + rest[0]] + rest[1..]
  }

  lemma {:induction false} SplitFirst(p: string, rest: string)
    requires '/' !in p
    ensures Split(p + "/" + rest) == [p] + Split(rest)
    ensures Split(p) == [p]
  {
    if p == "" {
      assert p + "/" + rest == "/" + rest;
      assert ("/" + rest)[1..] == rest;
    } else {
      SplitFirst(p[1..], rest);
      assert (p + "/" + rest)[1..] == p[1..] + "/" + rest;
      assert [p[0]] + p[1..] == p;
    }
  }

  function ParseDecimal(s: string): nat {
    if s == "" then 0 else 10 * ParseDecimal(s[..|s| - 1]) + DigitValue(s[|s| - 1])
  }

  function ParseHex(s: string): seq<byte> {
    if |s| < 2 then []
    else
      var b := (16 * DigitValue(s[|s| - 2]) + DigitValue(s[|s| - 1])) % 0x100;
      ParseHex(s[..|s| - 2]) + [b]
  }

  lemma {:induction false} DecimalRoundTrip(n: nat)
    ensures ParseDecimal(Decimal(n)) == n
  {
    hide Digit, DigitValue;
    if n < 10 {
      assert Decimal(n)[..0] == "";
    } else {
      var init := Decimal(n / 10);
      assert Decimal(n)[..|init|] == init;
      DecimalRoundTrip(n / 10);
    }
  }

  lemma {:induction false} HexRoundTrip(bytes: seq<byte>)
    ensures ParseHex(Hex(bytes)) == bytes
  {
    hide Digit, DigitValue;
    if bytes != [] {
      var init, last: int := bytes[..|bytes| - 1], bytes[|bytes| - 1];
      var s := Hex(bytes);
      assert s[..|s| - 2] == Hex(init);
      HexRoundTrip(init);
      assert init + [bytes[|bytes| - 1]] == bytes;
    }
  }

  /** A decimal number is printed in digits, the ones last, the tens before them and so on. */
  lemma {:induction false} DecimalDigits(n: nat, i: nat)
    requires i < |Decimal(n)|
    ensures var c := Decimal(n)[|Decimal(n)| - 1 - i];
            '0' <= c <= '9' && c as int - '0' as int == n / Pow10(i) % 10
  {
    if n < 10 {
      assert n / 1 % 10 == n;
    } else if i == 0 {
      assert n / 1 == n;
    } else {
      DecimalDigits(n / 10, i - 1);
      TenTimes(n, Pow10(i - 1));
    }
  }

  lemma TenTimes(n: nat, p: nat)
    requires p >= 1
    ensures n / 10 / p == n / (10 * p)
  {
    var q, r := n / (10 * p), n % (10 * p);
    assert n == 10 * (p * q) + r;
    assert n / 10 == p * q + r / 10;
    assert r / 10 < p;
    QuotientIs(n / 10, p, q, r / 10);
  }

  lemma QuotientIs(a: nat, p: nat, q: nat, r: nat)
    requires p >= 1 && r < p && a == p * q + r
    ensures a / p == q
  {
    var d := a / p - q;
    DivMod(a, p);
    assert p * d == p * (a / p) - p * q;
    TimesAnInteger(p, d);
  }

  lemma TimesAnInteger(p: int, d: int)
    requires p >= 1
    ensures (d >= 1 ==> p * d >= p) && (d <= -1 ==> p * d <= -p)
  {}

  lemma DivMod(a: nat, p: nat)
    requires p >= 1
    ensures a == p * (a / p) + a % p && 0 <= a % p < p
  {}

  /** Bytes are printed in order, the high digit of each first. */
  lemma {:induction false} HexDigits(bytes: seq<byte>, i: nat)
    requires i < |bytes|
    ensures DigitValue(Hex(bytes)[2 * i]) == bytes[i] / 16 && DigitValue(Hex(bytes)[2 * i + 1]) == bytes[i] % 16
  {
    hide DigitValue;
    if i < |bytes| - 1 { HexDigits(bytes[..|bytes| - 1], i); }
  }

  /** A listener: split on '/', undo the mangling; the topic part comes back with its slash. */
  function ReadLiveliness(key: string): Option<Entity> {
    var p := Split(key);
    if |p| != 13 || p[0] != "@ros2_lv" || p[3..5] != ["0", "10"] || p[6..8] != ["%", "%"]
       || p[12] != "::,7:,:,:,," || ParseDecimal(p[1]) >= WORD_RANGE then None
    else
      Some(Entity(ParseDecimal(p[1]), ParseHex(p[2]), p[5], p[8], Replaced(p[9], '%', '/'), p[10], p[11]))
  }

  lemma SplitTail(typeName: string, hash: string)
    requires '/' !in typeName && '/' !in hash
    ensures Split(typeName + "/" + hash + "/::,7:,:,:,,") == [typeName, hash, "::,7:,:,:,,"]
  {
    hide Split;
    var q := "::,7:,:,:,,";
    SplitFirst(q, "");
    SplitFirst(hash, q);
    SplitFirst(typeName, hash + "/" + q);
    assert typeName + "/" + hash + "/::,7:,:,:,," == typeName + "/" + (hash + "/" + q);
  }

  lemma SplitRest(node: string, mangled: string, tail: string)
    requires '/' !in node && '/' !in mangled
    ensures Split(node + "/%" + mangled + "/" + tail) == [node, "%" + mangled] + Split(tail)
  {
    hide Split;
    SplitFirst("%" + mangled, tail);
    SplitFirst(node, "%" + mangled + "/" + tail);
    assert node + "/%" + mangled + "/" + tail == node + "/" + ("%" + mangled + "/" + tail);
  }

  lemma SplitFront(domain: string, zid: string, kind: string, rest: string)
    requires '/' !in domain && '/' !in zid && '/' !in kind
    ensures Split("@ros2_lv/" + domain + "/" + zid + "/0/10/" + kind + "/%/%/" + rest)
         == ["@ros2_lv", domain, zid, "0", "10", kind, "%", "%"] + Split(rest)
  {
    hide Split;
    var r7 := "%" + "/" + rest;
    var r6 := "%" + "/" + r7;
    var r5 := kind + "/" + r6;
    var r4 := "10" + "/" + r5;
    var r3 := "0" + "/" + r4;
    var r2 := zid + "/" + r3;
    var r1 := domain + "/" + r2;
    SplitLiteral("%", rest);
    SplitLiteral("%", r7);
    SplitFirst(kind, r6);
    SplitLiteral("10", r5);
    SplitLiteral("0", r4);
    SplitFirst(zid, r3);
    SplitFirst(domain, r2);
    SplitLiteral("@ros2_lv", r1);
    assert Split(r5) == [kind, "%", "%"] + Split(rest);
    assert Split(r3) == ["0", "10", kind, "%", "%"] + Split(rest);
    assert Split(r1) == [domain, zid, "0", "10", kind, "%", "%"] + Split(rest);
    assert kind + "/%/%/" + rest == r5;
    assert "/0/10/" + r5 == "/" + r3;
    assert "/0/10/" + kind + "/%/%/" + rest == "/0/10/" + (kind + "/%/%/" + rest);
    assert "@ros2_lv/" + domain + "/" + zid + ("/" + r3) == "@ros2_lv" + "/" + r1;
    assert "@ros2_lv/" + domain + "/" + zid + "/0/10/" + kind + "/%/%/" + rest
        == "@ros2_lv/" + domain + "/" + zid + ("/0/10/" + kind + "/%/%/" + rest);
  }

  lemma SplitLiteral(p: string, rest: string)
    requires p in {"@ros2_lv", "0", "10", "%"}
    ensures Split(p + "/" + rest) == [p] + Split(rest)
  {
    SplitFirst(p, rest);
  }

  lemma MangledIs(maxTopic: nat, topic: string)
    requires |topic| < maxTopic
    ensures Mangled(maxTopic, topic) == Replaced(StripSlash(topic), '/', '%')
  {
  }

  /** Undoing the mangling of t, with the '%' printed in front of it. */
  lemma Unmangled(t: string)
    ensures '/' !in Replaced(t, '/', '%')
    ensures Replaced("%" + Replaced(t, '/', '%'), '%', '/') == "/" + Replaced(t, '%', '/')
  {
    var m := Replaced(t, '/', '%');
    var u, v := Replaced("%" + m, '%', '/'), "/" + Replaced(t, '%', '/');
    assert |u| == |v|;
    forall i | 0 <= i < |u| ensures u[i] == v[i] {
      if i > 0 { assert ("%" + m)[i] == m[i - 1]; }
    }
  }

  lemma ReplacedNothing(t: string)
    ensures Replaced(t, '%', '/') == t <==> '%' !in t
  {
    var r := Replaced(t, '%', '/');
    if '%' !in t { assert r == t; }
    if r == t {
      forall i | 0 <= i < |t| ensures t[i] != '%' { assert r[i] == t[i]; }
    }
  }

  lemma UnmangledIs(topic: string)
    ensures var m := Replaced(StripSlash(topic), '/', '%');
      && '/' !in m
      && (Replaced("%" + m, '%', '/') == "/" + topic <==> '%' !in topic && StripSlash(topic) == topic)
  {
    var t := StripSlash(topic);
    Unmangled(t);
    ReplacedNothing(t);
    var a := Replaced(t, '%', '/');
    assert ("/" + a)[1..] == a && ("/" + topic)[1..] == topic;
    assert |a| == |t|;
  }

  /** Splitting a liveliness key on '/' recovers domain, session id, kind, node, type and hash.
      The topic comes back exactly when, after its leading slash is removed, it holds no '%' and
      does not start with a second slash (mangling would strip that one, too). */
  lemma ReadingALivelinessKey(maxTopic: nat, e: Entity)
    requires |StripSlash(e.topic)| < maxTopic
    requires '/' !in e.kind && '/' !in e.node && '/' !in e.typeName && '/' !in e.hash
    ensures var r := ReadLiveliness(LivelinessKey(maxTopic, e));
      && r.Some? && r.value == e.(topic := r.value.topic)
      && (r.value.topic == "/" + StripSlash(e.topic)
          <==> '%' !in e.topic && StripSlash(StripSlash(e.topic)) == StripSlash(e.topic))
  {
    hide Decimal, Hex, Mangled, Split, ParseDecimal, ParseHex, Replaced;
    var topic := StripSlash(e.topic);
    MangledIs(maxTopic, topic);
    UnmangledIs(topic);
    var tail := e.typeName + "/" + e.hash + "/::,7:,:,:,,";
    var rest := e.node + "/%" + Mangled(maxTopic, topic) + "/" + tail;
    SplitTail(e.typeName, e.hash);
    SplitRest(e.node, Mangled(maxTopic, topic), tail);
    SplitFront(Decimal(e.domain), Hex(e.zid), e.kind, rest);
    DecimalRoundTrip(e.domain);
    HexRoundTrip(e.zid);
    assert '%' in e.topic <==> '%' in topic;
  }

  /** Two keys are therefore equal exactly when all that is printed in them is: domain, session, kind,
      node, type and the topic without its leading slash. Two publishers of one node on the same topic and
      type share a key. */
  lemma LivelinessKeysTellApart(maxTopic: nat, e: Entity, f: Entity)
    requires |StripSlash(e.topic)| < maxTopic && |StripSlash(f.topic)| < maxTopic
    requires '/' !in e.kind && '/' !in e.node && '/' !in e.typeName && '/' !in e.hash
    requires '/' !in f.kind && '/' !in f.node && '/' !in f.typeName && '/' !in f.hash
    requires '%' !in e.topic && StripSlash(StripSlash(e.topic)) == StripSlash(e.topic)
    requires '%' !in f.topic && StripSlash(StripSlash(f.topic)) == StripSlash(f.topic)
    ensures LivelinessKey(maxTopic, e) == LivelinessKey(maxTopic, f)
            <==> e.(topic := StripSlash(e.topic)) == f.(topic := StripSlash(f.topic))
  {
    if e.(topic := StripSlash(e.topic)) == f.(topic := StripSlash(f.topic)) {
      KeyPrintsTheStrippedTopic(maxTopic, e, f);
    }
    hide LivelinessKey, ReadLiveliness;
    ReadingALivelinessKey(maxTopic, e);
    ReadingALivelinessKey(maxTopic, f);
    var a, b := "/" + StripSlash(e.topic), "/" + StripSlash(f.topic);
    assert a[1..] == StripSlash(e.topic) && b[1..] == StripSlash(f.topic);
  }

  lemma KeyPrintsTheStrippedTopic(maxTopic: nat, e: Entity, f: Entity)
    requires maxTopic >= 1 && e.(topic := StripSlash(e.topic)) == f.(topic := StripSlash(f.topic))
    ensures LivelinessKey(maxTopic, e) == LivelinessKey(maxTopic, f)
  {}

  // ---- the other two keys --------------------------------------------------------------------

  function Joined(parts: seq<string>): string
    requires parts != []
  {
    if |parts| == 1 then parts[0] else parts[0] + "/" + Joined(parts[1..])
  }

  lemma {:induction false} SplitThenJoined(s: string)
    ensures Joined(Split(s)) == s
  {
    if s != "" {
      SplitThenJoined(s[1..]);
      var rest := Split(s[1..]);
      if s[0] == '/' {
        assert ([""] + rest)[1..] == rest;
        assert s == "/" + s[1..];
      } else {
        var parts := [[s[0]] + rest[0]] + rest[1..];
        assert parts[1..] == rest[1..];
        assert s == [s[0]] + s[1..];
        if |rest| > 1 { assert parts[0] + "/" + Joined(rest[1..]) == [s[0]] + (rest[0] + "/" + Joined(rest[1..])); }
      }
    }
  }

  lemma SplitUnfolds(s: string)
    requires s != ""
    ensures var rest := Split(s[1..]);
            Split(s) == if s[0] == '/' then [""] + rest else [[s[0]] + rest[0]] + rest[1..]
  {}

  lemma {:induction false} SplitAtSlash(a: string, b: string)
    ensures Split(a + "/" + b) == Split(a) + Split(b)
  {
    if a == "" {
      assert a + "/" + b == "/" + b && ("/" + b)[1..] == b;
    } else {
      hide Split;
      var s := a + "/" + b;
      assert s[1..] == a[1..] + "/" + b && s[0] == a[0];
      SplitAtSlash(a[1..], b);
      SplitUnfolds(s);
      SplitUnfolds(a);
      HeadOfSum(Split(a[1..]), Split(b), a[0]);
    }
  }

  lemma HeadOfSum(r: seq<string>, q: seq<string>, c: char)
    requires r != []
    ensures [""] + (r + q) == [""] + r + q
    ensures [[c] + (r + q)[0]] + (r + q)[1..] == [[c] + r[0]] + r[1..] + q
  {}

  /** What a subscriber to the published topic must use: domain, topic, type and hash. The topic may have
      slashes of its own. */
  function ReadTopicKey(key: string): Option<(nat, string, string, string)> {
    var p := Split(key);
    var n := |p|;
    if n < 4 then None else Some((ParseDecimal(p[0]), Joined(p[1..n - 2]), p[n - 2], p[n - 1]))
  }

  /** The key a topic is published under gives back the domain, the topic without its leading slash, the
      type and the hash. */
  lemma ReadingATopicKey(e: Entity)
    requires '/' !in e.typeName && '/' !in e.hash
    ensures ReadTopicKey(TopicKey(e)) == Some((e.domain as nat, StripSlash(e.topic), e.typeName, e.hash))
  {
    hide Split, Decimal, ParseDecimal, Joined, StripSlash;
    var d, t := Decimal(e.domain), StripSlash(e.topic);
    DecimalRoundTrip(e.domain);
    SplitThenJoined(t);
    SplitFirst(e.hash, "");
    SplitFirst(e.typeName, e.hash);
    SplitAtSlash(t, e.typeName + "/" + e.hash);
    SplitFirst(d, t + "/" + (e.typeName + "/" + e.hash));
    assert TopicKey(e) == d + "/" + (t + "/" + (e.typeName + "/" + e.hash));
    var p := [d] + (Split(t) + [e.typeName, e.hash]);
    assert Split(TopicKey(e)) == p;
    assert p[1..|p| - 2] == Split(t);
  }

  function ReadNodeKey(key: string): Option<(nat, seq<byte>, string)> {
    var p := Split(key);
    if |p| != 9 || p[0] != "@ros2_lv" || p[3..8] != ["0", "0", "NN", "%", "%"] then None
    else Some((ParseDecimal(p[1]), ParseHex(p[2]), p[8]))
  }

  /** The node's token gives back domain, session id and name. */
  lemma ReadingANodeKey(domain: uint32, zid: seq<byte>, node: string)
    requires '/' !in node
    ensures ReadNodeKey(NodeKey(domain, zid, node)) == Some((domain as nat, zid, node))
  {
    hide Split, Decimal, ParseDecimal, Hex, ParseHex;
    DecimalRoundTrip(domain);
    HexRoundTrip(zid);
    SplitFirst(node, "");
    SplitFirst("%", node);
    SplitFirst("%", "%" + "/" + node);
    SplitFirst("NN", "%/%/" + node);
    SplitFirst("0", "NN/%/%/" + node);
    SplitFirst("0", "0/NN/%/%/" + node);
    SplitFirst(Hex(zid), "0/0/NN/%/%/" + node);
    SplitFirst(Decimal(domain), Hex(zid) + "/" + ("0/0/NN/%/%/" + node));
    SplitFirst("@ros2_lv", Decimal(domain) + "/" + (Hex(zid) + "/" + ("0/0/NN/%/%/" + node)));
    NodeKeyParts(Decimal(domain), Hex(zid), node);
  }

  lemma NodeKeyParts(domain: string, zid: string, node: string)
    ensures "@ros2_lv/" + domain + "/" + zid + "/0/0/NN/%/%/" + node
         == "@ros2_lv" + "/" + (domain + "/" + (zid + "/" + ("0/0/NN/%/%/" + node)))
    ensures "0/0/NN/%/%/" + node == "0" + "/" + ("0/NN/%/%/" + node)
    ensures "0/NN/%/%/" + node == "0" + "/" + ("NN/%/%/" + node)
    ensures "NN/%/%/" + node == "NN" + "/" + ("%/%/" + node) && "%/%/" + node == "%" + "/" + ("%" + "/" + node)
  {}

  /** With two leading slashes the announced topic is not the published one. */
  lemma TwoSlashesAreLost(e: Entity)
    requires e.topic == "//a" && '/' !in e.kind && '/' !in e.node && '/' !in e.typeName && '/' !in e.hash
    ensures ReadLiveliness(LivelinessKey(64, e)).Some?
    ensures ReadLiveliness(LivelinessKey(64, e)).value.topic != "/" + StripSlash(e.topic)
  {
    hide LivelinessKey, ReadLiveliness;
    ReadingALivelinessKey(64, e);
    assert StripSlash("//a") == "/a" && StripSlash("/a") == "a";
  }
}
