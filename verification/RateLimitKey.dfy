/**
  The bucket keys of the rate limiters and parseRateLimitKey, which takes them apart again
  (internal/middleware/rate_limiter.go and strict_login_limit.go).
*/
module RateLimitKey {
  import opened Common

  /** Whose requests a bucket counts; identifiers appear as they are printed into the key. */
  datatype Subject =
    | Ip(ip: string)
    | User(uid: string)
    | ApiKey(id: string)
    | MemberRpm(uid: string)
    | StrictIp(path: string, ip: string)
    | StrictUser(path: string, uid: string)

  function Key(s: Subject): string {
    match s
    case Ip(ip) => "rl:ip:" + ip
    case User(uid) => "rl:user:" + uid
    case ApiKey(id) => "rl:apikey:" + id
    case MemberRpm(uid) => "rl:member_rpm:" + uid
    case StrictIp(path, ip) => "rl:strict:" + path + ":" + ip
    case StrictUser(path, uid) => "rl:strict:" + path + ":user:" + uid
  }

  // ---------- Which bucket a request uses ----------

  predicate IsExemptIP(ip: string) {
    ip == "::1" || ip == "127.0.0.1" || "172.17." <= ip || "172.18." <= ip
  }

  datatype Dimension = DimensionIP | DimensionUser

  /** SensitiveRateLimit: None means the request is let through without a bucket. */
  function SensitiveSubject(rpm: int, dimension: Dimension, userId: Option<string>, path: string, ip: string)
    : Option<Subject>
  {
    if rpm <= 0 then None
    else if dimension == DimensionUser && userId.Some? then Some(StrictUser(path, userId.value))
    else if IsExemptIP(ip) then None
    else Some(StrictIp(path, ip))
  }

  /** Exactly which requests pass without a bucket: those without a limit, and those counted by address
      that come from the machine itself or from a container network. */
  lemma WithoutBucketIff(rpm: int, dimension: Dimension, userId: Option<string>, path: string, ip: string)
    ensures SensitiveSubject(rpm, dimension, userId, path, ip) == None
      <==> || rpm <= 0
           || ((dimension == DimensionIP || userId == None)
               && (ip in {"::1", "127.0.0.1"} || exists rest :: ip == "172.17." + rest || ip == "172.18." + rest))
  {
    if "172.17." <= ip || "172.18." <= ip {
      var rest := ip[7..];
      assert ip == ip[..7] + rest;
      assert ip[..7] == "172.17." || ip[..7] == "172.18.";
    }
  }

  // ---------- Parsing ----------

  datatype Parsed = Parsed(subjectType: string, subjectID: string, rule: string)

  predicate OccursAt(s: string, sub: string, i: int) {
    0 <= i && i + |sub| <= |s| && s[i..i + |sub|] == sub
  }

  ghost predicate Contains(s: string, sub: string) {
    exists i :: OccursAt(s, sub, i)
  }

  /** Position of the last occurrence that starts below `bound`, or -1. */
  function LastIndexBelow(s: string, sub: string, bound: nat): (i: int)
    ensures -1 <= i < bound
    ensures i >= 0 ==> OccursAt(s, sub, i)
    ensures forall j :: i < j < bound ==> !OccursAt(s, sub, j)
  {
    if bound == 0 then -1
    else if OccursAt(s, sub, bound - 1) then bound - 1
    else LastIndexBelow(s, sub, bound - 1)
  }

  function LastIndex(s: string, sub: string): (i: int)
    ensures i >= 0 ==> OccursAt(s, sub, i)
    ensures forall j :: i < j ==> !OccursAt(s, sub, j)
    ensures i >= -1
  {
    LastIndexBelow(s, sub, |s| + 1)
  }

  function ParseStrict(rest: string): Parsed {
    var u := LastIndex(rest, ":user:");
    if u >= 0 then Parsed("strict_user", rest[u + 6..], "strict:" + rest[..u])
    else
      var c := LastIndex(rest, ":");
      if c >= 0 then Parsed("strict_ip", rest[c + 1..], "strict:" + rest[..c])
      else Parsed("strict", rest, "strict")
  }

  function ParseRateLimitKey(key: string): Parsed {
    if "rl:ip:" <= key then Parsed("ip", key[|"rl:ip:"|..], "sliding_60s")
    else if "rl:user:" <= key then Parsed("user", key[|"rl:user:"|..], "sliding_60s")
    else if "rl:apikey:" <= key then Parsed("apikey", key[|"rl:apikey:"|..], "sliding_60s")
    else if "rl:member_rpm:" <= key then Parsed("member", key[|"rl:member_rpm:"|..], "member_rpm")
    else if "rl:strict:" <= key then ParseStrict(key[|"rl:strict:"|..])
    else Parsed("unknown", key, "sliding_60s")
  }

  /** A key that no limiter builds is kept whole: with an unknown prefix, or strict without a colon. */
  lemma ForeignKeysAreKept(key: string)
    ensures
      ("rl:ip:" <= key || "rl:user:" <= key || "rl:apikey:" <= key || "rl:member_rpm:" <= key || "rl:strict:" <= key)
      || ParseRateLimitKey(key) == Parsed("unknown", key, "sliding_60s")
    ensures ':' !in key ==> ParseRateLimitKey("rl:strict:" + key) == Parsed("strict", key, "strict")
  {
    if ':' !in key {
      StrictWithoutColon(key);
      var whole := "rl:strict:" + key;
      assert whole[3] == 's' && whole[|"rl:strict:"|..] == key;
      assert "rl:ip:"[3] == 'i' && "rl:user:"[3] == 'u' && "rl:apikey:"[3] == 'a' && "rl:member_rpm:"[3] == 'm';
    }
  }

  lemma StrictWithoutColon(rest: string)
    requires ':' !in rest
    ensures ParseStrict(rest) == Parsed("strict", rest, "strict")
  {
    var u := LastIndex(rest, ":user:");
    if u >= 0 {
      OccurrenceOfUser(rest, u);
    }
    ColonOccurs(rest, LastIndex(rest, ":"));
  }

  /** What a 429 event for the subject ought to say. */
  function Meaning(s: Subject): Parsed {
    match s
    case Ip(ip) => Parsed("ip", ip, "sliding_60s")
    case User(uid) => Parsed("user", uid, "sliding_60s")
    case ApiKey(id) => Parsed("apikey", id, "sliding_60s")
    case MemberRpm(uid) => Parsed("member", uid, "member_rpm")
    case StrictIp(path, ip) => Parsed("strict_ip", ip, "strict:" + path)
    case StrictUser(path, uid) => Parsed("strict_user", uid, "strict:" + path)
  }

  // ---------- Reading strict keys back ----------

  lemma OccurrenceOfUser(s: string, i: int)
    requires OccursAt(s, ":user:", i)
    ensures s[i] == ':' && s[i + 5] == ':'
  {
    assert s[i..i + 6][0] == s[i] && s[i..i + 6][5] == s[i + 5];
  }

  lemma ColonOccurs(s: string, i: int)
    ensures OccursAt(s, ":", i) <==> 0 <= i < |s| && s[i] == ':'
  {
    if 0 <= i < |s| {
      assert s[i..i + 1] == [s[i]];
    }
  }

  lemma PrefixOccurrence(s: string, t: string, sub: string, i: int)
    requires OccursAt(s, sub, i)
    ensures OccursAt(s + t, sub, i)
  {
    assert (s + t)[i..i + |sub|] == s[i..i + |sub|];
  }

  /** A strict IP key reads back exactly when the address has no colon and the path,
      followed by ":", does not contain ":user:". */
  lemma StrictIpReadsBackIff(path: string, ip: string)
    ensures ParseStrict(path + ":" + ip) == Meaning(StrictIp(path, ip))
       <==> ':' !in ip && !Contains(path + ":", ":user:")
  {
    var rest := path + ":" + ip;
    if ':' !in ip && !Contains(path + ":", ":user:") {
      StrictIpReadsBack(path, ip);
    } else if Contains(path + ":", ":user:") {
      var i :| OccursAt(path + ":", ":user:", i);
      PrefixOccurrence(path + ":", ip, ":user:", i);
      assert ParseStrict(rest).subjectType == "strict_user";
    } else {
      var j :| 0 <= j < |ip| && ip[j] == ':';
      ColonOccurs(rest, |path| + 1 + j);
      if LastIndex(rest, ":user:") < 0 {
        assert LastIndex(rest, ":") >= |path| + 1 + j;
        assert |ParseStrict(rest).subjectID| < |ip|;
      } else {
        assert ParseStrict(rest).subjectType == "strict_user";
      }
    }
  }

  lemma StrictIpReadsBack(path: string, ip: string)
    requires ':' !in ip && !Contains(path + ":", ":user:")
    ensures ParseStrict(path + ":" + ip) == Meaning(StrictIp(path, ip))
  {
    var rest := path + ":" + ip;
    var u := LastIndex(rest, ":user:");
    if u >= 0 {
      OccurrenceOfUser(rest, u);
      assert u + 5 <= |path|;
      assert rest[u..u + 6] == (path + ":")[u..u + 6];
      assert OccursAt(path + ":", ":user:", u);
      assert false;
    }
    LastColon(path, ip);
    assert rest[|path| + 1..] == ip && rest[..|path|] == path;
  }

  lemma LastColon(path: string, ip: string)
    requires ':' !in ip
    ensures LastIndex(path + ":" + ip, ":") == |path|
  {
    var rest := path + ":" + ip;
    ColonOccurs(rest, |path|);
    var c := LastIndex(rest, ":");
    ColonOccurs(rest, c);
    assert forall j :: |path| < j < |rest| ==> rest[j] == ip[j - |path| - 1];
  }

  /** A strict user key reads back for every path, provided the printed id has no colon. */
  lemma StrictUserReadsBack(path: string, uid: string)
    requires ':' !in uid
    ensures ParseStrict(path + ":user:" + uid) == Meaning(StrictUser(path, uid))
  {
    var rest := path + ":user:" + uid;
    assert rest[|path|..|path| + 6] == ":user:";
    assert OccursAt(rest, ":user:", |path|);
    var u := LastIndex(rest, ":user:");
    OccurrenceOfUser(rest, u);
    if u > |path| {
      ColonsOfUserKey(path, uid, u);
      ColonsOfUserKey(path, uid, u + 5);
      assert false;
    }
    assert rest[|path| + 6..] == uid && rest[..|path|] == path;
  }

  lemma ColonsOfUserKey(path: string, uid: string, i: int)
    requires ':' !in uid && |path| < i < |path + ":user:" + uid|
    requires (path + ":user:" + uid)[i] == ':'
    ensures i == |path| + 5
  {
    var rest := path + ":user:" + uid;
    assert forall j :: 0 <= j < |uid| ==> rest[|path| + 6 + j] == uid[j];
    assert forall j :: 0 <= j < 6 ==> rest[|path| + j] == ":user:"[j];
  }

  // ---------- All keys ----------

  /** Printed user ids have no colon; see StrictIpReadsBackIff for addresses and paths. */
  ghost predicate Readable(s: Subject) {
    && (s.StrictIp? ==> ':' !in s.ip && !Contains(s.path + ":", ":user:"))
    && (s.StrictUser? ==> ':' !in s.uid)
  }

  /** Parsing a key recovers the subject kind, the subject id and the rule it was built from. */
  lemma KeyReadsBack(s: Subject)
    requires Readable(s)
    ensures ParseRateLimitKey(Key(s)) == Meaning(s)
  {
    match s
    case Ip(ip) => IpKeyIsParsed(ip);
    case User(uid) => UserKeyIsParsed(uid);
    case ApiKey(id) => ApiKeyIsParsed(id);
    case MemberRpm(uid) => MemberKeyIsParsed(uid);
    case StrictIp(path, ip) => StrictIpKeyIsParsed(path, ip);
    case StrictUser(path, uid) => StrictUserKeyIsParsed(path, uid);
  }

  lemma StrictIpKeyIsParsed(path: string, ip: string)
    requires ':' !in ip && !Contains(path + ":", ":user:")
    ensures ParseRateLimitKey(Key(StrictIp(path, ip))) == Meaning(StrictIp(path, ip))
  {
    StrictIpReadsBack(path, ip);
    assert Key(StrictIp(path, ip)) == "rl:strict:" + (path + ":" + ip);
    StrictKeyIsParsed(Key(StrictIp(path, ip)), path + ":" + ip);
  }

  lemma StrictUserKeyIsParsed(path: string, uid: string)
    requires ':' !in uid
    ensures ParseRateLimitKey(Key(StrictUser(path, uid))) == Meaning(StrictUser(path, uid))
  {
    StrictUserReadsBack(path, uid);
    assert Key(StrictUser(path, uid)) == "rl:strict:" + (path + ":user:" + uid);
    StrictKeyIsParsed(Key(StrictUser(path, uid)), path + ":user:" + uid);
  }

  lemma IpKeyIsParsed(ip: string)
    ensures ParseRateLimitKey("rl:ip:" + ip) == Meaning(Ip(ip))
  {
  }

  lemma UserKeyIsParsed(uid: string)
    ensures ParseRateLimitKey("rl:user:" + uid) == Meaning(User(uid))
  {
    assert ("rl:user:" + uid)[3] == 'u';
  }

  lemma ApiKeyIsParsed(id: string)
    ensures ParseRateLimitKey("rl:apikey:" + id) == Meaning(ApiKey(id))
  {
    assert ("rl:apikey:" + id)[3] == 'a';
  }

  lemma MemberKeyIsParsed(uid: string)
    ensures ParseRateLimitKey("rl:member_rpm:" + uid) == Meaning(MemberRpm(uid))
  {
    assert ("rl:member_rpm:" + uid)[3] == 'm';
  }

  lemma StrictKeyIsParsed(key: string, rest: string)
    requires key == "rl:strict:" + rest
    ensures ParseRateLimitKey(key) == ParseStrict(rest)
  {
    assert key[3] == 's';
    assert key[10..] == rest;
  }

  // ---------- Shared buckets ----------

  /** A strict key is "rl:strict:" + path + ":" + id; a user's key puts ":user" behind its path. */
  datatype Place = Place(path: string, id: string)

  predicate IsStrict(s: Subject) {
    s.StrictIp? || s.StrictUser?
  }

  function PlaceOf(s: Subject): Place
    requires IsStrict(s)
  {
    if s.StrictIp? then Place(s.path, s.ip) else Place(s.path + ":user", s.uid)
  }

  function Text(p: Place): string {
    p.path + ":" + p.id
  }

  lemma StrictKeyText(s: Subject)
    requires IsStrict(s)
    ensures Key(s) == "rl:strict:" + Text(PlaceOf(s))
  {
    if s.StrictUser? {
      assert "rl:strict:" + s.path + ":user:" + s.uid == "rl:strict:" + ((s.path + ":user") + ":" + s.uid);
    } else {
      assert "rl:strict:" + s.path + ":" + s.ip == "rl:strict:" + (s.path + ":" + s.ip);
    }
  }

  lemma StrictKeysEqualIff(a: Subject, b: Subject)
    requires IsStrict(a) && IsStrict(b)
    ensures Key(a) == Key(b) <==> Text(PlaceOf(a)) == Text(PlaceOf(b))
  {
    StrictKeyText(a);
    StrictKeyText(b);
    assert Key(a)[10..] == Text(PlaceOf(a)) && Key(b)[10..] == Text(PlaceOf(b));
  }

  /** Some text up to a colon has slid from the front of one id to the end of the other path. */
  predicate Slides(p: Place, q: Place) {
    && |p.path| < |q.path| && q.path[..|p.path|] == p.path && q.path[|p.path|] == ':'
    && p.id == q.path[|p.path| + 1..] + ":" + q.id
  }

  lemma SlidesReadsAlike(p: Place, q: Place)
    requires Slides(p, q)
    ensures Text(p) == Text(q)
  {
    var n := |p.path|;
    assert q.path == p.path + ":" + q.path[n + 1..];
    assert p.path + ":" + (q.path[n + 1..] + ":" + q.id) == (p.path + ":" + q.path[n + 1..]) + ":" + q.id;
  }

  lemma LongerPathSlides(p: Place, q: Place)
    requires Text(p) == Text(q) && |p.path| < |q.path|
    ensures Slides(p, q)
  {
    var n, m := |p.path|, |q.path|;
    assert p.path == Text(p)[..n] == Text(q)[..n] == q.path[..n];
    assert Text(p)[n] == ':' == Text(q)[n] == q.path[n];
    assert p.id == Text(p)[n + 1..] == Text(q)[n + 1..];
    assert Text(q)[n + 1..] == q.path[n + 1..] + ":" + q.id;
  }

  lemma TextsEqualIff(p: Place, q: Place)
    ensures Text(p) == Text(q) <==> p == q || Slides(p, q) || Slides(q, p)
  {
    if Text(p) == Text(q) {
      if |p.path| < |q.path| {
        LongerPathSlides(p, q);
      } else if |q.path| < |p.path| {
        LongerPathSlides(q, p);
      } else {
        assert p.path == Text(p)[..|p.path|] && q.path == Text(q)[..|q.path|];
        assert p.id == Text(p)[|p.path| + 1..] && q.id == Text(q)[|q.path| + 1..];
      }
    } else if Slides(p, q) {
      SlidesReadsAlike(p, q);
    } else if Slides(q, p) {
      SlidesReadsAlike(q, p);
    }
  }

  // Keys of different kinds differ in their fourth character; the other kinds are just prefixed.
  lemma OtherKeysDiffer(a: Subject, b: Subject)
    requires a != b && !(IsStrict(a) && IsStrict(b))
    ensures Key(a) != Key(b)
  {
    KeyKind(a);
    KeyKind(b);
  }

  function PrefixLength(s: Subject): nat {
    match s
    case Ip(_) => 6
    case User(_) => 8
    case ApiKey(_) => 10
    case MemberRpm(_) => 14
    case _ => 10
  }

  function Tail(s: Subject): string {
    match s
    case Ip(ip) => ip
    case User(uid) => uid
    case ApiKey(id) => id
    case MemberRpm(uid) => uid
    case _ => Text(PlaceOf(s))
  }

  function KindChar(s: Subject): char {
    match s
    case Ip(_) => 'i'
    case User(_) => 'u'
    case ApiKey(_) => 'a'
    case MemberRpm(_) => 'm'
    case _ => 's'
  }

  lemma KeyKind(s: Subject)
    ensures |Key(s)| >= PrefixLength(s) && Key(s)[PrefixLength(s)..] == Tail(s)
    ensures Key(s)[3] == KindChar(s)
  {
    if IsStrict(s) {
      StrictKeyText(s);
    }
  }

  predicate Collide(a: Subject, b: Subject) {
    && IsStrict(a) && IsStrict(b)
    && (PlaceOf(a) == PlaceOf(b) || Slides(PlaceOf(a), PlaceOf(b)) || Slides(PlaceOf(b), PlaceOf(a)))
  }

  /** Exactly which distinct subjects share a bucket, for all kinds, paths and addresses. */
  lemma BucketsSharedIff(a: Subject, b: Subject)
    requires a != b
    ensures Key(a) == Key(b) <==> Collide(a, b)
  {
    if IsStrict(a) && IsStrict(b) {
      StrictKeysEqualIff(a, b);
      TextsEqualIff(PlaceOf(a), PlaceOf(b));
    } else {
      OtherKeysDiffer(a, b);
    }
  }

  /** One is an unauthenticated caller of a route that ends in ":user", the other the user with
      that id of the shorter route. */
  predicate RouteEndsInUser(a: Subject, b: Subject) {
    a.StrictIp? && b.StrictUser? && a.path == b.path + ":user" && a.ip == b.uid
  }

  predicate NoColon(s: Subject) {
    (s.StrictIp? ==> ':' !in s.ip) && (s.StrictUser? ==> ':' !in s.uid)
  }

  lemma SlidingNeedsColon(p: Place, q: Place)
    requires Slides(p, q)
    ensures ':' in p.id
  {
    assert p.id[|q.path| - |p.path| - 1] == ':';
  }

  lemma PlaceIdentifies(a: Subject, b: Subject)
    requires IsStrict(a) && IsStrict(b) && a.StrictUser? == b.StrictUser?
    requires PlaceOf(a) == PlaceOf(b)
    ensures a == b
  {
    if a.StrictUser? {
      assert a.path == (a.path + ":user")[..|a.path|] && b.path == (b.path + ":user")[..|b.path|];
    }
  }

  lemma SamePlaceIff(a: Subject, b: Subject)
    requires a != b && IsStrict(a) && IsStrict(b)
    ensures PlaceOf(a) == PlaceOf(b) <==> RouteEndsInUser(a, b) || RouteEndsInUser(b, a)
  {
    if a.StrictUser? == b.StrictUser? && PlaceOf(a) == PlaceOf(b) {
      PlaceIdentifies(a, b);
    }
  }

  /** Among subjects whose address or id has no colon that is the only way. */
  lemma WithoutColonsBucketsSharedIff(a: Subject, b: Subject)
    requires a != b && NoColon(a) && NoColon(b)
    ensures Key(a) == Key(b) <==> RouteEndsInUser(a, b) || RouteEndsInUser(b, a)
  {
    BucketsSharedIff(a, b);
    if IsStrict(a) && IsStrict(b) {
      SamePlaceIff(a, b);
      if Slides(PlaceOf(a), PlaceOf(b)) {
        SlidingNeedsColon(PlaceOf(a), PlaceOf(b));
      }
      if Slides(PlaceOf(b), PlaceOf(a)) {
        SlidingNeedsColon(PlaceOf(b), PlaceOf(a));
      }
    }
  }

  /** So subjects whose keys read back never share a bucket. */
  lemma DistinctSubjectsDistinctBuckets(a: Subject, b: Subject)
    requires Readable(a) && Readable(b) && a != b
    ensures Key(a) != Key(b)
  {
    WithoutColonsBucketsSharedIff(a, b);
    if RouteEndsInUser(a, b) {
      EndsInUser(b.path);
    } else if RouteEndsInUser(b, a) {
      EndsInUser(a.path);
    }
  }

  lemma EndsInUser(path: string)
    ensures Contains(path + ":user" + ":", ":user:")
  {
    var s := path + ":user" + ":";
    assert s[|path|..|path| + 6] == ":user:";
    assert OccursAt(s, ":user:", |path|);
  }

  /** The one way they do collide, for every route and id. */
  lemma BucketsCollide(path: string, id: string)
    ensures StrictIp(path + ":user", id) != StrictUser(path, id)
    ensures Key(StrictIp(path + ":user", id)) == Key(StrictUser(path, id))
  {
    StrictKeysEqualIff(StrictIp(path + ":user", id), StrictUser(path, id));
  }

  /** An address with colons can collide with a route that continues with its first groups. */
  lemma AddressSlides(path: string, group: string, rest: string)
    ensures Key(StrictIp(path, group + ":" + rest)) == Key(StrictIp(path + ":" + group, rest))
    ensures StrictIp(path, group + ":" + rest) != StrictIp(path + ":" + group, rest)
  {
    var p, q := Place(path, group + ":" + rest), Place(path + ":" + group, rest);
    assert q.path[..|path|] == path && q.path[|path|] == ':' && q.path[|path| + 1..] == group;
    SlidesReadsAlike(p, q);
    StrictKeysEqualIff(StrictIp(p.path, p.id), StrictIp(q.path, q.id));
    assert |p.path| < |q.path|;
  }

  /** Exactly which keys built by SensitiveRateLimit read back as the request they were built for. */
  lemma SensitiveKeyReadsBackIff(rpm: int, dimension: Dimension, userId: Option<string>, path: string, ip: string)
    requires userId.Some? ==> ':' !in userId.value
    requires SensitiveSubject(rpm, dimension, userId, path, ip).Some?
    ensures var s := SensitiveSubject(rpm, dimension, userId, path, ip).value;
      ParseRateLimitKey(Key(s)) == Meaning(s)
      <==> (dimension == DimensionUser && userId.Some?) || (':' !in ip && !Contains(path + ":", ":user:"))
  {
    var s := SensitiveSubject(rpm, dimension, userId, path, ip).value;
    if s.StrictUser? {
      KeyReadsBack(s);
    } else {
      StrictIpReadsBackIff(path, ip);
      StrictKeyIsParsed(Key(s), path + ":" + ip);
    }
  }
}
