/** Addressing of S3 objects: the node's upload side (node/src/storage/sigv4.rs) and the coordinator's
    presigned download side (coordinator/src/storage.rs), written independently of each other. */
module S3Address {
  import opened Common
  import opened Strings

  /** The addressing part of both S3 configurations. */
  datatype Config = Config(endpoint: string, bucket: string, pathStyle: bool)

  // ---- String helpers of the Rust library ----

  function TrimEnd(s: string): (r: string)
    ensures r <= s && (forall k | |r| <= k < |s| :: s[k] == '/')
    ensures r == "" || r[|r| - 1] != '/'
  {
    if s == "" || s[|s| - 1] != '/' then s else TrimEnd(s[..|s| - 1])
  }

  function TrimStart(s: string): (r: string)
    ensures |r| <= |s| && r == s[|s| - |r|..] && (forall k | 0 <= k < |s| - |r| :: s[k] == '/')
    ensures r == "" || r[0] != '/'
  {
    if s == "" || s[0] != '/' then s else TrimStart(s[1..])
  }

  predicate OccursAt(s: string, pattern: string, i: int) {
    0 <= i <= |s| - |pattern| && s[i..i + |pattern|] == pattern
  }

  /** The first occurrence at or after `from`. */
  function Find(s: string, pattern: string, from: nat): (r: Option<nat>)
    requires from <= |s|
    ensures r.Some? ==> from <= r.value && OccursAt(s, pattern, r.value)
                        && forall i | from <= i < r.value :: !OccursAt(s, pattern, i)
    ensures r.None? ==> forall i | from <= i <= |s| :: !OccursAt(s, pattern, i)
    decreases |s| - from
  {
    if OccursAt(s, pattern, from) then Some(from)
    else if from == |s| then None
    else Find(s, pattern, from + 1)
  }

  const SEPARATOR := "://"

  /** Where the host starts: after the first `://`, or at 0 without one. */
  function SchemeEnd(endpoint: string): (n: nat)
    ensures n <= |endpoint|
  {
    match Find(endpoint, SEPARATOR, 0)
    case Some(i) => i + 3
    case None => 0
  }

  // ---- node/src/storage/sigv4.rs ----

  function Endpoint(cfg: Config): string {
    TrimEnd(cfg.endpoint)
  }

  function EndpointScheme(cfg: Config): string {
    Endpoint(cfg)[..SchemeEnd(Endpoint(cfg))]
  }

  /** `S3Config::object_url`. */
  function ObjectUrl(cfg: Config, key: string): string {
    var endpoint := Endpoint(cfg);
    if cfg.pathStyle then endpoint + "/" + cfg.bucket + "/" + TrimStart(key)
    else
      var schemeEnd := SchemeEnd(endpoint);
      endpoint[..schemeEnd] + cfg.bucket + "." + endpoint[schemeEnd..] + "/" + TrimStart(key)
  }

  /** `S3Config::host`, the signed host of an upload. */
  function PutHost(cfg: Config): string {
    var hostPart := Endpoint(cfg)[SchemeEnd(Endpoint(cfg))..];
    if cfg.pathStyle then hostPart else cfg.bucket + "." + hostPart
  }

  /** The canonical path `signed_put_headers` signs. */
  function PutPath(cfg: Config, key: string): string {
    if cfg.pathStyle then "/" + cfg.bucket + "/" + TrimStart(key) else "/" + TrimStart(key)
  }

  /** The address a PUT is sent to is exactly the host and path that were signed, in both styles. */
  lemma UploadGoesWhereSigned(cfg: Config, key: string)
    ensures ObjectUrl(cfg, key) == EndpointScheme(cfg) + PutHost(cfg) + PutPath(cfg, key)
  {
    var endpoint, n := Endpoint(cfg), SchemeEnd(Endpoint(cfg));
    var scheme, host := endpoint[..n], endpoint[n..];
    assert endpoint == scheme + host;
    if cfg.pathStyle {
      RegroupPathStyle(endpoint, cfg.bucket, TrimStart(key));
    } else {
      RegroupVirtual(scheme, host, cfg.bucket, TrimStart(key));
    }
  }

  lemma RegroupPathStyle(endpoint: string, bucket: string, key: string)
    ensures endpoint + "/" + bucket + "/" + key == endpoint + ("/" + bucket + "/" + key)
  {
  }

  lemma RegroupVirtual(scheme: string, host: string, bucket: string, key: string)
    ensures scheme + bucket + "." + host + "/" + key == scheme + (bucket + "." + host) + ("/" + key)
  {
  }

  /** Any number of slashes. */
  predicate Slashes(s: string) {
    forall i | 0 <= i < |s| :: s[i] == '/'
  }

  lemma {:induction false} TrimmedEndpoint(endpoint: string, slashes: string)
    requires endpoint != "" && endpoint[|endpoint| - 1] != '/' && Slashes(slashes)
    ensures TrimEnd(endpoint + slashes) == endpoint
    decreases |slashes|
  {
    if slashes == "" {
      assert endpoint + slashes == endpoint;
    } else {
      var init := slashes[..|slashes| - 1];
      assert (endpoint + slashes)[..|endpoint| + |init|] == endpoint + init;
      TrimmedEndpoint(endpoint, init);
    }
  }

  lemma {:induction false} TrimmedKey(slashes: string, key: string)
    requires Slashes(slashes) && (key == "" || key[0] != '/')
    ensures TrimStart(slashes + key) == key
  {
    if slashes == "" {
      assert slashes + key == key;
    } else {
      assert (slashes + key)[1..] == slashes[1..] + key;
      TrimmedKey(slashes[1..], key);
    }
  }

  /** `s` is `core` with nothing but slashes behind it. */
  predicate SlashesBehind(s: string, core: string) {
    core <= s && Slashes(s[|core|..])
  }

  /** `s` is `core` with nothing but slashes before it. */
  predicate SlashesBefore(s: string, core: string) {
    |core| <= |s| && s[|s| - |core|..] == core && Slashes(s[..|s| - |core|])
  }

  /** A scheme, and a host that does not end in a slash. */
  predicate IsEndpoint(scheme: string, host: string) {
    IsScheme(scheme) && host != "" && host[|host| - 1] != '/'
  }

  lemma FormTrimmed(cfg: Config, given: string, scheme: string, host: string, key: string)
    requires IsEndpoint(scheme, host) && SlashesBehind(cfg.endpoint, scheme + host)
    requires SlashesBefore(given, key) && (key == "" || key[0] != '/')
    ensures Endpoint(cfg) == scheme + host && EndpointScheme(cfg) == scheme && TrimStart(given) == key
    ensures Endpoint(cfg)[SchemeEnd(Endpoint(cfg))..] == host
  {
    var slashes, before := cfg.endpoint[|scheme + host|..], given[..|given| - |key|];
    assert cfg.endpoint == scheme + host + slashes;
    assert given == before + key;
    TrimmedEndpoint(scheme + host, slashes);
    TrimmedKey(before, key);
    SchemeEndAt(scheme + host, scheme);
    HostBehind(scheme, host);
  }

  /** The documented path-style form, spelt out: the bucket is in the path; slashes behind the endpoint and before
      the key do not matter. */
  lemma PathStyleForm(cfg: Config, given: string, scheme: string, host: string, key: string)
    requires IsEndpoint(scheme, host) && SlashesBehind(cfg.endpoint, scheme + host) && cfg.pathStyle
    requires SlashesBefore(given, key) && (key == "" || key[0] != '/')
    ensures ObjectUrl(cfg, given) == scheme + host + "/" + cfg.bucket + "/" + key
  {
    FormTrimmed(cfg, given, scheme, host, key);
  }

  /** The virtual-hosted form: the bucket stands before the host, behind the scheme. */
  lemma VirtualHostForm(cfg: Config, given: string, scheme: string, host: string, key: string)
    requires IsEndpoint(scheme, host) && SlashesBehind(cfg.endpoint, scheme + host) && !cfg.pathStyle
    requires SlashesBefore(given, key) && (key == "" || key[0] != '/')
    ensures ObjectUrl(cfg, given) == scheme + cfg.bucket + "." + host + "/" + key
  {
    FormTrimmed(cfg, given, scheme, host, key);
  }

  // ---- The storage URI between the two sides ----

  const URI_SCHEME := "s3://"

  /** The `storage_uri` the migrator reports. */
  function PrintUri(bucket: string, key: string): string {
    URI_SCHEME + bucket + "/" + key
  }

  datatype Location = Location(bucket: string, key: string)

  /** `presigned_get` splits after the scheme at the first slash. */
  function ParseUri(uri: string): Option<Location> {
    if |uri| < |URI_SCHEME| || uri[..|URI_SCHEME|] != URI_SCHEME then None
    else
      var rest := uri[|URI_SCHEME|..];
      match Find(rest, "/", 0)
      case None => None
      case Some(slash) => Some(Location(rest[..slash], rest[slash + 1..]))
  }

  lemma SlashFree(s: string)
    ensures '/' in s <==> exists i :: OccursAt(s, "/", i)
  {
    if '/' in s {
      var i :| 0 <= i < |s| && s[i] == '/';
      assert OccursAt(s, "/", i);
    }
    if i :| OccursAt(s, "/", i) {
      assert s[i..i + 1][0] == '/';
    }
  }

  /** Whatever parses is what was printed, and its bucket has no slash. */
  lemma ParsedIsPrinted(uri: string)
    ensures ParseUri(uri).Some? ==>
              var l := ParseUri(uri).value; '/' !in l.bucket && uri == PrintUri(l.bucket, l.key)
  {
    if ParseUri(uri).Some? {
      var rest := uri[|URI_SCHEME|..];
      var slash := Find(rest, "/", 0).value;
      var bucket := rest[..slash];
      SlashFree(bucket);
      assert forall i | OccursAt(bucket, "/", i) :: OccursAt(rest, "/", i);
      assert rest[slash..slash + 1] == "/";
      assert rest == bucket + "/" + rest[slash + 1..];
      assert uri == URI_SCHEME + rest;
    }
  }

  lemma PrintedParses(bucket: string, key: string)
    ensures ParseUri(PrintUri(bucket, key)).Some?
  {
    var uri, rest := PrintUri(bucket, key), bucket + "/" + key;
    PrintedForm(bucket, key);
    assert uri[|URI_SCHEME|..] == rest;
    assert OccursAt(rest, "/", |bucket|);
  }

  lemma PrintedForm(bucket: string, key: string)
    ensures PrintUri(bucket, key) == URI_SCHEME + (bucket + "/" + key)
  {
    Assoc(URI_SCHEME, bucket, "/");
    Assoc(URI_SCHEME, bucket + "/", key);
  }

  /** Printing then parsing recovers bucket and key exactly for buckets without a slash. */
  lemma UriRoundTripIff(bucket: string, key: string)
    ensures ParseUri(PrintUri(bucket, key)) == Some(Location(bucket, key)) <==> '/' !in bucket
  {
    PrintedParses(bucket, key);
    ParsedIsPrinted(PrintUri(bucket, key));
    var l := ParseUri(PrintUri(bucket, key)).value;
    if '/' !in bucket {
      PrintedForm(bucket, key);
      PrintedForm(l.bucket, l.key);
      CancelPrefix(URI_SCHEME, bucket + "/" + key, l.bucket + "/" + l.key);
      SplitUnique('/', bucket, key, l.bucket, l.key);
    }
  }

  // ---- coordinator/src/storage.rs ----

  /** What `presigned_get` signs and the URL it returns, up to the `?`. */
  datatype Presigned = Presigned(host: string, path: string, base: string)

  function UrlScheme(endpoint: string): string {
    if "https://" <= endpoint then "https" else "http"
  }

  function Presign(cfg: Config, uri: string): Option<Presigned> {
    match ParseUri(uri)
    case None => None
    case Some(l) =>
      var endpoint := Endpoint(cfg);
      var hostPart := endpoint[SchemeEnd(endpoint)..];
      var host := if cfg.pathStyle then hostPart else l.bucket + "." + hostPart;
      var path := if cfg.pathStyle then "/" + l.bucket + "/" + l.key else "/" + l.key;
      Some(Presigned(host, path, UrlScheme(endpoint) + SEPARATOR + host + path))
  }

  /** The endpoint, less its trailing slashes, names a host over http or https. */
  predicate WebEndpoint(cfg: Config) {
    "http://" <= Endpoint(cfg) || "https://" <= Endpoint(cfg)
  }

  /** Up to and including the first `://`. */
  predicate IsScheme(s: string) {
    OccursAt(s, SEPARATOR, |s| - 3) && forall i | 0 <= i < |s| - 3 :: !OccursAt(s, SEPARATOR, i)
  }

  lemma OccursInPrefix(s: string, n: nat, i: nat)
    requires i + 3 <= n <= |s|
    ensures OccursAt(s, SEPARATOR, i) <==> OccursAt(s[..n], SEPARATOR, i)
  {
    assert s[..n][i..i + 3] == s[i..i + 3];
  }

  lemma SchemesEqualInOrder(a: string, x: string, b: string, y: string)
    requires IsScheme(a) && IsScheme(b) && a + x == b + y && |a| <= |b|
    ensures a == b
  {
    var s := a + x;
    assert s[..|a|] == a && s[..|b|] == b;
    OccursInPrefix(s, |a|, |a| - 3);
    OccursInPrefix(s, |b|, |a| - 3);
  }

  /** A scheme is determined by what it is joined into. */
  lemma SchemesEqual(a: string, x: string, b: string, y: string)
    requires IsScheme(a) && IsScheme(b) && a + x == b + y
    ensures a == b
  {
    if |a| <= |b| {
      SchemesEqualInOrder(a, x, b, y);
    } else {
      SchemesEqualInOrder(b, y, a, x);
    }
  }

  lemma EndpointSchemeForm(cfg: Config)
    ensures EndpointScheme(cfg) == "" || IsScheme(EndpointScheme(cfg))
  {
    var endpoint, n := Endpoint(cfg), SchemeEnd(Endpoint(cfg));
    if n > 0 {
      forall i | 0 <= i <= n - 3 ensures OccursAt(endpoint, SEPARATOR, i) <==> OccursAt(endpoint[..n], SEPARATOR, i) {
        OccursInPrefix(endpoint, n, i);
      }
    }
  }

  lemma WebSchemes()
    ensures IsScheme("http" + SEPARATOR) && IsScheme("https" + SEPARATOR)
  {
    var http, https := "http" + SEPARATOR, "https" + SEPARATOR;
    assert http[4..7] == SEPARATOR && https[5..8] == SEPARATOR;
    forall i | 0 <= i < 4 ensures !OccursAt(http, SEPARATOR, i) {
      assert http[i..i + 3][0] == http[i] != ':';
    }
    forall i | 0 <= i < 5 ensures !OccursAt(https, SEPARATOR, i) {
      assert https[i..i + 3][0] == https[i] != ':';
    }
  }

  lemma SchemeEndAt(endpoint: string, scheme: string)
    requires IsScheme(scheme) && scheme <= endpoint
    ensures endpoint[..SchemeEnd(endpoint)] == scheme
  {
    var n := |scheme|;
    assert endpoint[..n] == scheme;
    forall i | 0 <= i <= n - 3 ensures OccursAt(endpoint, SEPARATOR, i) <==> OccursAt(scheme, SEPARATOR, i) {
      OccursInPrefix(endpoint, n, i);
    }
    assert Find(endpoint, SEPARATOR, 0) == Some(n - 3);
  }

  /** Both sides use the same scheme exactly for a web endpoint. */
  lemma SchemesAgreeIff(cfg: Config)
    ensures EndpointScheme(cfg) == UrlScheme(Endpoint(cfg)) + SEPARATOR <==> WebEndpoint(cfg)
  {
    var endpoint := Endpoint(cfg);
    WebSchemes();
    assert "http" + SEPARATOR == "http://" && "https" + SEPARATOR == "https://";
    if "https://" <= endpoint {
      SchemeEndAt(endpoint, "https://");
    } else if "http://" <= endpoint {
      SchemeEndAt(endpoint, "http://");
    } else {
      assert EndpointScheme(cfg) <= endpoint;
    }
  }

  /** Two URLs over the same host agree only part by part. */
  lemma SameUrlIff(put: string, get: string, host: string, putPath: string, getPath: string)
    requires (put == "" || IsScheme(put)) && IsScheme(get) && |putPath| <= |getPath|
    ensures get + host + getPath == put + host + putPath <==> get == put && getPath == putPath
  {
    if get + host + getPath == put + host + putPath && put != "" {
      assert get + (host + getPath) == get + host + getPath && put + (host + putPath) == put + host + putPath;
      SchemesEqual(get, host + getPath, put, host + putPath);
      CancelPrefix(put + host, getPath, putPath);
    }
  }

  /** A download is signed for the host the upload was signed for. */
  lemma HostsAgree(cfg: Config, key: string)
    requires '/' !in cfg.bucket
    ensures Presign(cfg, PrintUri(cfg.bucket, key)).Some?
    ensures Presign(cfg, PrintUri(cfg.bucket, key)).value.host == PutHost(cfg)
  {
    UriRoundTripIff(cfg.bucket, key);
  }

  lemma PathsAgreeIff(cfg: Config, key: string)
    requires '/' !in cfg.bucket
    ensures Presign(cfg, PrintUri(cfg.bucket, key)).Some?
    ensures (Presign(cfg, PrintUri(cfg.bucket, key)).value.path == PutPath(cfg, key)
             <==> (key == "" || key[0] != '/'))
    ensures |Presign(cfg, PrintUri(cfg.bucket, key)).value.path| >= |PutPath(cfg, key)|
  {
    UriRoundTripIff(cfg.bucket, key);
    CancelPrefix(if cfg.pathStyle then "/" + cfg.bucket + "/" else "/", TrimStart(key), key);
  }

  /** The download URL is the upload URL exactly for a web endpoint and a key without a leading slash. */
  lemma UrlsAgreeIff(cfg: Config, key: string)
    requires '/' !in cfg.bucket
    ensures Presign(cfg, PrintUri(cfg.bucket, key)).Some?
    ensures (Presign(cfg, PrintUri(cfg.bucket, key)).value.base == ObjectUrl(cfg, key)
             <==> WebEndpoint(cfg) && (key == "" || key[0] != '/'))
  {
    HostsAgree(cfg, key);
    PathsAgreeIff(cfg, key);
    UploadGoesWhereSigned(cfg, key);
    SchemesAgreeIff(cfg);
    EndpointSchemeForm(cfg);
    WebSchemes();
    var get := Presign(cfg, PrintUri(cfg.bucket, key)).value;
    SameUrlIff(EndpointScheme(cfg), UrlScheme(Endpoint(cfg)) + SEPARATOR, get.host, PutPath(cfg, key), get.path);
  }

  /** The download address, spelt out in the same way, for the two schemes there are. */
  lemma PresignForm(https: bool, host: string, slashes: string, own: string, bucket: string, key: string, pathStyle: bool)
    requires host != "" && host[|host| - 1] != '/' && Slashes(slashes) && '/' !in bucket
    ensures var scheme := if https then "https://" else "http://";
            var get := Presign(Config(scheme + host + slashes, own, pathStyle), "s3://" + bucket + "/" + key);
            && get.Some?
            && get.value.host == (if pathStyle then host else bucket + "." + host)
            && get.value.path == (if pathStyle then "/" + bucket + "/" + key else "/" + key)
            && get.value.base == scheme + get.value.host + get.value.path
  {
    var scheme := if https then "https://" else "http://";
    var cfg := Config(scheme + host + slashes, own, pathStyle);
    WebSchemes();
    assert "http" + SEPARATOR == "http://" && "https" + SEPARATOR == "https://";
    TrimmedEndpoint(scheme + host, slashes);
    SchemeEndAt(scheme + host, scheme);
    HostBehind(scheme, host);
    UriRoundTripIff(bucket, key);
    assert PrintUri(bucket, key) == "s3://" + bucket + "/" + key;
    SchemeChosen(https, host);
    PresignParts(cfg, "s3://" + bucket + "/" + key, scheme, host, Location(bucket, key));
  }

  lemma HostBehind(scheme: string, host: string)
    requires SchemeEnd(scheme + host) <= |scheme + host| && (scheme + host)[..SchemeEnd(scheme + host)] == scheme
    ensures (scheme + host)[SchemeEnd(scheme + host)..] == host
  {
    assert |(scheme + host)[..SchemeEnd(scheme + host)]| == |scheme|;
  }

  lemma SchemeChosen(https: bool, host: string)
    ensures UrlScheme((if https then "https://" else "http://") + host) + SEPARATOR == if https then "https://" else "http://"
  {
    if !https {
      assert ("http://" + host)[4] == ':' && "https://"[4] == 's';
    }
  }

  lemma PresignParts(cfg: Config, uri: string, scheme: string, host: string, l: Location)
    requires ParseUri(uri) == Some(l) && Endpoint(cfg) == scheme + host
    requires UrlScheme(scheme + host) + SEPARATOR == scheme && (scheme + host)[SchemeEnd(scheme + host)..] == host
    ensures Presign(cfg, uri).Some?
    ensures var get := Presign(cfg, uri).value;
            && get.host == (if cfg.pathStyle then host else l.bucket + "." + host)
            && get.path == (if cfg.pathStyle then "/" + l.bucket + "/" + l.key else "/" + l.key)
            && get.base == scheme + get.host + get.path
  {
  }
}
