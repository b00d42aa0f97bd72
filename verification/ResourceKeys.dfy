/**
 Resource references and their string keys (internal/resource/store/encode.go).
 */
module ResourceKeys {
  import opened Bytes
  import opened Base64

  datatype Account = Account(id: Bytes, name: Bytes)

  /** The protobuf `Namespace` oneof; `Unset` is a namespace whose oneof is empty. */
  datatype Namespace =
    | Cloud(account: Option<Account>, region: Bytes, group: Bytes)
    | Kube(cluster: Bytes, namespace: Bytes)
    | Host(host: Bytes, container: Bytes)
    | Unset

  datatype ResourceRef = ResourceRef(typeUrl: Bytes, name: Bytes, ns: Option<Namespace>)

  const CLOUD: Bytes := "cloud"
  const KUBE: Bytes := "kube"
  const EMPTY_REF := ResourceRef([], [], None)

  function AccountId(a: Option<Account>): Bytes {
    if a.None? then [] else a.value.id
  }

  /** The name qualified by its cloud or Kubernetes namespace; other namespaces are dropped. */
  function QualifiedName(r: ResourceRef): Bytes {
    match r.ns
    case Some(Cloud(account, region, group)) =>
      CLOUD + "/" + AccountId(account) + "/" + region + "/" + group + "/" + r.name
    case Some(Kube(cluster, namespace)) =>
      KUBE + "/" + cluster + "/" + namespace + "/" + r.name
    case _ => r.name
  }

  function Key(r: ResourceRef): Bytes {
    r.typeUrl + "/" + Encode(Url, QualifiedName(r))
  }

  /** `encodeResourceKey`; `None` is the error of a nil reference or an empty type. */
  function EncodeResourceKey(r: Option<ResourceRef>): (k: Option<Bytes>)
    ensures k.None? <==> r.None? || r.value.typeUrl == []
  {
    if r.None? || r.value.typeUrl == [] then None else Some(Key(r.value))
  }

  // ---------- What a key identifies ----------

  datatype Scope =
    | Global
    | InCloud(accountId: Bytes, region: Bytes, group: Bytes)
    | InKube(cluster: Bytes, namespace: Bytes)

  /** The part of a namespace that reaches the key: no account name, no host. */
  function ScopeOf(r: ResourceRef): Scope {
    match r.ns
    case Some(Cloud(account, region, group)) => InCloud(AccountId(account), region, group)
    case Some(Kube(cluster, namespace)) => InKube(cluster, namespace)
    case _ => Global
  }

  predicate SameResource(r: ResourceRef, q: ResourceRef) {
    r.typeUrl == q.typeUrl && r.name == q.name && ScopeOf(r) == ScopeOf(q)
  }

  predicate SlashFree(r: ResourceRef) {
    && '/' !in r.name
    && match ScopeOf(r)
       case InCloud(id, region, group) => '/' !in id && '/' !in region && '/' !in group
       case InKube(cluster, namespace) => '/' !in cluster && '/' !in namespace
       case Global => true
  }

  function Parts(r: ResourceRef): seq<Bytes> {
    match ScopeOf(r)
    case InCloud(id, region, group) => [CLOUD, id, region, group, r.name]
    case InKube(cluster, namespace) => [KUBE, cluster, namespace, r.name]
    case Global => [r.name]
  }

  lemma JoinFour(a: Bytes, b: Bytes, c: Bytes, d: Bytes)
    ensures Join([a, b, c, d], '/') == a + "/" + b + "/" + c + "/" + d
  {
    assert [a, b, c, d][1..] == [b, c, d] && [b, c, d][1..] == [c, d] && [c, d][1..] == [d];
    assert Join([d], '/') == d;
    assert Join([c, d], '/') == c + "/" + d;
    assert Join([b, c, d], '/') == b + "/" + (c + "/" + d);
  }

  lemma JoinFive(a: Bytes, b: Bytes, c: Bytes, d: Bytes, e: Bytes)
    ensures Join([a, b, c, d, e], '/') == a + "/" + b + "/" + c + "/" + d + "/" + e
  {
    JoinFour(b, c, d, e);
    assert [a, b, c, d, e][1..] == [b, c, d, e];
  }

  lemma QualifiedNameIsJoin(r: ResourceRef)
    ensures QualifiedName(r) == Join(Parts(r), '/')
  {
    match ScopeOf(r)
    case InCloud(id, region, group) => JoinFive(CLOUD, id, region, group, r.name);
    case InKube(cluster, namespace) => JoinFour(KUBE, cluster, namespace, r.name);
    case Global =>
  }

  /** A slash-free reference can be read back from its qualified name. */
  lemma SplitQualifiedName(r: ResourceRef)
    requires SlashFree(r)
    ensures Split(QualifiedName(r), '/') == Parts(r)
  {
    QualifiedNameIsJoin(r);
    SplitJoin(Parts(r), '/');
  }

  /** A key determines its type and its qualified name, whatever slashes they hold. */
  lemma KeyParts(r: ResourceRef, q: ResourceRef)
    requires Key(r) == Key(q)
    ensures r.typeUrl == q.typeUrl && QualifiedName(r) == QualifiedName(q)
  {
    var x, y := Encode(Url, QualifiedName(r)), Encode(Url, QualifiedName(q));
    NoSlash(QualifiedName(r));
    NoSlash(QualifiedName(q));
    LastSeparatorUnique(r.typeUrl, x, q.typeUrl, y, '/');
    EncodeInjective(Url, QualifiedName(r), QualifiedName(q));
  }

  /** Keys of slash-free references are equal exactly for the same resource. */
  lemma KeyInjective(r: ResourceRef, q: ResourceRef)
    requires SlashFree(r) && SlashFree(q)
    ensures Key(r) == Key(q) <==> SameResource(r, q)
  {
    if Key(r) == Key(q) {
      KeyParts(r, q);
      SplitQualifiedName(r);
      SplitQualifiedName(q);
      assert |Parts(r)| == |Parts(q)|;
      assert Parts(r)[|Parts(r)| - 1] == r.name;
      assert Parts(q)[|Parts(q)| - 1] == q.name;
      match ScopeOf(r)
      case InCloud(id, region, group) => assert id == Parts(q)[1] && region == Parts(q)[2] && group == Parts(q)[3];
      case InKube(cluster, namespace) => assert cluster == Parts(q)[1] && namespace == Parts(q)[2];
      case Global =>
    }
  }

  /** With slashes allowed, a plain name can pose as a Kubernetes or a cloud one. */
  lemma SlashesCollide(typeUrl: Bytes)
    ensures var plain := ResourceRef(typeUrl, "kube/c/n/x", None);
            var kube := ResourceRef(typeUrl, "x", Some(Kube("c", "n")));
            Key(plain) == Key(kube) && !SameResource(plain, kube)
    ensures var plain := ResourceRef(typeUrl, "cloud/i/r/g/x", None);
            var cloud := ResourceRef(typeUrl, "x", Some(Cloud(Some(Account("i", [])), "r", "g")));
            Key(plain) == Key(cloud) && !SameResource(plain, cloud)
  {
    var kube := ResourceRef(typeUrl, "x", Some(Kube("c", "n")));
    assert QualifiedName(kube) == "kube/c/n/x";
    var cloud := ResourceRef(typeUrl, "x", Some(Cloud(Some(Account("i", [])), "r", "g")));
    assert QualifiedName(cloud) == "cloud/i/r/g/x";
  }

  // ---------- decodeResourceKey ----------

  /**
   `decodeResourceKey` filling `r`, reading the name with alphabet `d`; the flag is
   false on error, when the fields set so far stay set.  The code reads with `Std`.
   */
  function DecodeWith(d: Alphabet, key: Bytes, r: ResourceRef): (e: (ResourceRef, bool))
    ensures |Split(key, '/')| != 2 ==> e == (r, false)
    ensures |Split(key, '/')| == 2 ==> e.0.typeUrl == Split(key, '/')[0]
    ensures |Split(key, '/')| == 2 && Decode(d, Split(key, '/')[1]).None? ==> e == (r.(typeUrl := e.0.typeUrl), false)
  {
    var parts := Split(key, '/');
    if |parts| != 2 then (r, false)
    else
      var typed := r.(typeUrl := parts[0]);
      var name := Decode(d, parts[1]);
      if name.None? then (typed, false)
      else DecodeName(Split(name.value, '/'), typed)
  }

  function DecodeName(parts: seq<Bytes>, r: ResourceRef): (d: (ResourceRef, bool))
    requires |parts| >= 1
    ensures d.0.typeUrl == r.typeUrl && (!d.1 ==> d.0 == r)
    ensures d.1 <==> |parts| == 1 || ((parts[0] == "cloud" ==> |parts| == 5) && (parts[0] == "kube" ==> |parts| == 4))
    ensures |parts| > 1 && parts[0] != "cloud" && parts[0] != "kube" ==> d.0 == r
  {
    if |parts| == 1 then (r.(name := parts[0]), true)
    else if parts[0] == CLOUD then
      if |parts[1..]| != 4 then (r, false)
      else (r.(ns := Some(Cloud(Some(Account(parts[1], [])), parts[2], parts[3])), name := parts[4]), true)
    else if parts[0] == KUBE then
      if |parts[1..]| != 3 then (r, false)
      else (r.(ns := Some(Kube(parts[1], parts[2])), name := parts[3]), true)
    else (r, true)
  }

  function DecodeResourceKey(key: Bytes, r: ResourceRef): (ResourceRef, bool) {
    DecodeWith(Std, key, r)
  }

  /** The reference with the fields a key drops cleared. */
  function Canonical(r: ResourceRef): (c: ResourceRef)
    ensures SameResource(r, c)
  {
    match ScopeOf(r)
    case InCloud(id, region, group) => ResourceRef(r.typeUrl, r.name, Some(Cloud(Some(Account(id, [])), region, group)))
    case InKube(cluster, namespace) => ResourceRef(r.typeUrl, r.name, Some(Kube(cluster, namespace)))
    case Global => ResourceRef(r.typeUrl, r.name, None)
  }

  /** Reading the slash-separated name back, for references with and without slashes. */
  lemma DecodeNameExact(r: ResourceRef)
    ensures DecodeName(Split(QualifiedName(r), '/'), EMPTY_REF.(typeUrl := r.typeUrl)) == (Canonical(r), true)
            <==> SlashFree(r)
  {
    if SlashFree(r) {
      SplitQualifiedName(r);
    }
  }

  /** A key splits in two exactly when its type has no slash. */
  lemma SplitKey(r: ResourceRef)
    ensures '/' !in r.typeUrl ==> Split(Key(r), '/') == [r.typeUrl, Encode(Url, QualifiedName(r))]
    ensures |Split(Key(r), '/')| == 2 && Split(Key(r), '/')[0] == r.typeUrl ==> '/' !in r.typeUrl
  {
    NoSlash(QualifiedName(r));
    if '/' !in r.typeUrl {
      SplitHead(r.typeUrl, Encode(Url, QualifiedName(r)), '/');
      SplitHead(Encode(Url, QualifiedName(r)), [], '/');
    }
  }

  /**
   Decoding an encoded reference restores it exactly when nothing in it holds a
   slash and the alphabet read with is the one written with, or the text avoids
   the two characters on which the alphabets differ.
   */
  lemma DecodeEncodeKey(d: Alphabet, r: ResourceRef)
    ensures DecodeWith(d, Key(r), EMPTY_REF) == (Canonical(r), true)
            <==> && '/' !in r.typeUrl && SlashFree(r)
                 && (d.Url? || !UrlOnly(Encode(Url, QualifiedName(r))))
  {
    SplitKey(r);
    if '/' !in r.typeUrl {
      DecodeEncode(Url, d, QualifiedName(r));
      DecodeNameExact(r);
    }
  }

  /** The name "~~>" is written as "fn4-", which the code cannot read back. */
  lemma UnreadableKey(typeUrl: Bytes)
    requires '/' !in typeUrl
    ensures DecodeResourceKey(Key(ResourceRef(typeUrl, "~~>", None)), EMPTY_REF)
            != (ResourceRef(typeUrl, "~~>", None), true)
    ensures DecodeWith(Url, Key(ResourceRef(typeUrl, "~~>", None)), EMPTY_REF)
            == (ResourceRef(typeUrl, "~~>", None), true)
  {
    var r := ResourceRef(typeUrl, "~~>", None);
    assert Encode(Url, "~~>")[3] == '-';
    DecodeEncodeKey(Std, r);
    DecodeEncodeKey(Url, r);
  }
}
