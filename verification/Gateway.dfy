/**
 Routing of user requests and what is forwarded of them (gateway.go).
 */
module Gateway {
  import opened Wrappers
  import opened Codecs
  import opened Registration
  import D = Dock

  // ---------------------------------------------------------------- resolving a path

  function TrimPrefix(s: string, prefix: string): string {
    if prefix <= s then s[|prefix|..] else s
  }

  /** The part of a string before its first slash. */
  function FirstSegment(s: string): (p: string)
    ensures p <= s && '/' !in p
    ensures |p| < |s| ==> s[|p|] == '/'
  {
    if s == "" || s[0] == '/' then "" else [s[0]] + FirstSegment(s[1..])
  }

  lemma {:induction false} SegmentOf(segment: string, tail: string)
    requires '/' !in segment && (tail == "" || tail[0] == '/')
    ensures FirstSegment(segment + tail) == segment
  {
    if segment == "" {
      assert segment + tail == tail;
    } else {
      assert (segment + tail)[1..] == segment[1..] + tail;
      SegmentOf(segment[1..], tail);
      assert segment == [segment[0]] + segment[1..];
    }
  }

  /** The Shore for a request and the prefix to strip from its path. */
  function ResolveShore(d: D.State, user: string, path: string, cookie: Option<string>): (Option<nat>, string) {
    var trimmed := TrimPrefix(path, "/");
    var segment := FirstSegment(trimmed);
    if trimmed != "" && GetByOwner(d, user, "shore-" + segment).Some?
    then (GetByOwner(d, user, "shore-" + segment), segment)
    else if cookie.Some? && cookie.value != ""
    then (GetByOwner(d, user, "shore-" + cookie.value), "")
    else (None, "")
  }

  // ---------------------------------------------------------------- whole browser sessions

  /** One request of a browser: the registry as it is at that moment, the user, and the path. */
  datatype Visit = Visit(d: D.State, user: string, path: string)

  /** The hermit_active_shore cookie of a browser after some requests: set by every response to a
      request that was matched by a non-empty prefix, and sent with every later request. */
  function CookieAfter(visits: seq<Visit>): Option<string> {
    if visits == [] then None
    else
      var before := CookieAfter(visits[..|visits|-1]);
      var v := visits[|visits|-1];
      var (shore, strip) := ResolveShore(v.d, v.user, v.path, before);
      if shore.Some? && strip != "" then Some(strip) else before
  }

  /** The requesting user has a connected Shore named by the first segment of the path. */
  predicate Matches(v: Visit) {
    TrimPrefix(v.path, "/") != "" && GetByOwner(v.d, v.user, "shore-" + FirstSegment(TrimPrefix(v.path, "/"))).Some?
  }

  /** The segment of the last request that named a Shore, found without looking at any cookie. */
  function LastMatch(visits: seq<Visit>): Option<string> {
    if visits == [] then None
    else
      var v := visits[|visits|-1];
      var segment := FirstSegment(TrimPrefix(v.path, "/"));
      if Matches(v) && segment != "" then Some(segment) else LastMatch(visits[..|visits|-1])
  }

  lemma {:induction false} CookieIsLastMatch(visits: seq<Visit>)
    ensures CookieAfter(visits) == LastMatch(visits)
    ensures CookieAfter(visits) != Some("")
  {
    if visits != [] {
      CookieIsLastMatch(visits[..|visits|-1]);
    }
  }

  /** Sticky routing.  Under any connects and disconnects between the requests of a browser, each
      request goes to the requesting user's connected Shore named by its first segment; failing that to
      the Shore that this browser last named successfully, if it is still connected and owned by this
      user; failing that to none.  So it never goes to a third Shore, nor to another user's. */
  lemma {:induction false} StickyRouting(visits: seq<Visit>, v: Visit)
    ensures var shore := ResolveShore(v.d, v.user, v.path, CookieAfter(visits)).0;
            && (Matches(v) ==> shore == GetByOwner(v.d, v.user, "shore-" + FirstSegment(TrimPrefix(v.path, "/"))))
            && (!Matches(v) && LastMatch(visits).Some? ==> shore == GetByOwner(v.d, v.user, "shore-" + LastMatch(visits).value))
            && (!Matches(v) && LastMatch(visits).None? ==> shore == None)
            && (shore.Some? ==> shore.value < |v.d.conns| && v.d.conns[shore.value].owner == v.user)
  {
    CookieIsLastMatch(visits);
  }

  /** The Shore that sticky routing picks in a reachable state is the one registered under the named
      segment, or under the last one named; it belongs to the user, is open and is still served. */
  lemma RoutedShoreIsServed(visits: seq<Visit>, v: Visit, run: seq<D.Action>)
    requires D.Run(run) == Some(v.d)
    ensures var shore := ResolveShore(v.d, v.user, v.path, CookieAfter(visits)).0;
            shore.Some? ==>
              && shore.value < |v.d.conns|
              && var conn := v.d.conns[shore.value];
              && (Matches(v) ==> conn.name == "shore-" + FirstSegment(TrimPrefix(v.path, "/")))
              && (!Matches(v) ==> LastMatch(visits).Some? && conn.name == "shore-" + LastMatch(visits).value)
              && conn.owner == v.user && !conn.tunnel.done && D.Serving(conn)
  {
    hide D.Run, D.Serving;
    StickyRouting(visits, v);
    if Matches(v) {
      RoutableIsOpen(run, v.user, "shore-" + FirstSegment(TrimPrefix(v.path, "/")));
    } else if LastMatch(visits).Some? {
      RoutableIsOpen(run, v.user, "shore-" + LastMatch(visits).value);
    }
  }

  // ---------------------------------------------------------------- the forwarded path

  function ForwardPath(path: string, strip: string, query: string): string {
    var stripped := TrimPrefix(path, "/" + strip);
    var forward := if strip == "" then path
                   else if stripped == "" || stripped[0] != '/' then "/" + stripped
                   else stripped;
    if query == "" then forward else forward + "?" + query
  }

  /** Every path on which the first segment names a connected Shore of the user is routed to that Shore,
      whatever cookie there is, and forwarded without the segment; with an empty segment, as it is. */
  lemma NamedShoreIsRouted(d: D.State, user: string, segment: string, tail: string, cookie: Option<string>, query: string)
    requires '/' !in segment && (tail == "" || tail[0] == '/') && segment + tail != ""
    requires GetByOwner(d, user, "shore-" + segment).Some?
    ensures ResolveShore(d, user, "/" + segment + tail, cookie) == (GetByOwner(d, user, "shore-" + segment), segment)
    ensures var forward := if segment == "" then "/" + tail else if tail == "" then "/" else tail;
            ForwardPath("/" + segment + tail, segment, query) == if query == "" then forward else forward + "?" + query
  {
    hide GetByOwner, FirstSegment;
    var path := "/" + segment + tail;
    assert path == "/" + (segment + tail);
    Trims("/", segment + tail);
    SegmentOf(segment, tail);
    Trims("/" + segment, tail);
    hide TrimPrefix;
    if segment == "" {
      assert path == "/" + tail;
    }
  }

  lemma Trims(prefix: string, rest: string)
    ensures TrimPrefix(prefix + rest, prefix) == rest
  {
  }

  /** A request that no non-empty segment matches, as are all that are routed by the cookie, is forwarded
      under its own path, with its query if it has one. */
  lemma UnmatchedPathsAreUntouched(visits: seq<Visit>, v: Visit, query: string)
    requires !Matches(v) || FirstSegment(TrimPrefix(v.path, "/")) == ""
    ensures ForwardPath(v.path, ResolveShore(v.d, v.user, v.path, CookieAfter(visits)).1, query) ==
            if query == "" then v.path else v.path + "?" + query
  {
  }

  /** The same told by the path: "/segment" and a tail, the segment naming no connected Shore of the
      user, goes unchanged to the Shore that the browser last named, if that is still there. */
  lemma CookieRoutedPathsAreUntouched(visits: seq<Visit>, d: D.State, user: string, segment: string, tail: string, query: string)
    requires '/' !in segment && (tail == "" || tail[0] == '/')
    requires GetByOwner(d, user, "shore-" + segment).None?
    ensures var path := "/" + segment + tail;
            var (shore, strip) := ResolveShore(d, user, path, CookieAfter(visits));
            && shore == (if LastMatch(visits).Some? then GetByOwner(d, user, "shore-" + LastMatch(visits).value) else None)
            && ForwardPath(path, strip, query) == if query == "" then path else path + "?" + query
  {
    hide GetByOwner, FirstSegment, CookieAfter, LastMatch;
    var path := "/" + segment + tail;
    assert path == "/" + (segment + tail);
    Trims("/", segment + tail);
    SegmentOf(segment, tail);
    CookieIsLastMatch(visits);
  }

  /** A matched absolute path is the segment followed by a tail that is empty or begins with a slash;
      the tail is what is forwarded, "/" if it is empty, and then the query if there is one.  So a
      forwarded path begins with a slash, and the original can be recovered from it, up to whether
      "/segment" ended in a slash. */
  lemma PrefixStripping(d: D.State, user: string, path: string, cookie: Option<string>, query: string)
    requires path != "" && path[0] == '/'
    requires var (shore, strip) := ResolveShore(d, user, path, cookie); shore.Some? && strip != ""
    ensures var strip := ResolveShore(d, user, path, cookie).1;
            && "/" + strip <= path
            && var tail := path[1 + |strip|..];
            && (tail == "" || tail[0] == '/')
            && var forward := if tail == "" then "/" else tail;
            && ForwardPath(path, strip, query) == (if query == "" then forward else forward + "?" + query)
            && forward[0] == '/'
            && (path == "/" + strip + forward || (forward == "/" && path == "/" + strip))
  {
    var strip := ResolveShore(d, user, path, cookie).1;
    var trimmed := TrimPrefix(path, "/");
    assert "/" <= path && path == "/" + trimmed;
    assert strip == FirstSegment(trimmed);
    assert path == "/" + strip + trimmed[|strip|..];
  }

  // ---------------------------------------------------------------- bodies

  const MAX_BODY: nat := 10 * 1024 * 1024

  datatype RequestBody = Absent | Readable(bytes: seq<byte>) | Broken

  /** The body field of the forwarded message; None stands for null. */
  function ForwardBody(body: RequestBody): Option<string> {
    if !body.Readable? then None
    else
      var raw := if |body.bytes| <= MAX_BODY then body.bytes else body.bytes[..MAX_BODY];
      if |raw| > 0 then Some(Base64Encode(raw)) else None
  }

  /** The bytes that `writeHTTPResponse` writes for the body field of a response. */
  function WrittenBody(body: string): seq<byte> {
    if body == "" then []
    else match Base64Decode(body)
      case None => Bytes(body)
      case Some(decoded) => decoded
  }

  /** Bodies pass through unchanged.  What the Shore decodes is exactly the first 10 MB of what the
      browser sent, and null if and only if that is nothing; what the browser gets of a response whose
      body encodes some bytes is exactly those bytes, so the raw fallback is never taken for it. */
  lemma BodiesAreTransparent(body: RequestBody, reply: seq<byte>)
    ensures ForwardBody(body) == None <==> body.Absent? || body.Broken? || body.bytes == []
    ensures ForwardBody(body).Some? ==>
              && Base64Decode(ForwardBody(body).value).Some?
              && var sent := Base64Decode(ForwardBody(body).value).value;
              && sent <= body.bytes
              && |sent| == if |body.bytes| <= 10_485_760 then |body.bytes| else 10_485_760
    ensures WrittenBody(Base64Encode(reply)) == reply
  {
    if ForwardBody(body).Some? {
      Base64RoundTrip(if |body.bytes| <= MAX_BODY then body.bytes else body.bytes[..MAX_BODY]);
    }
    Base64RoundTrip(reply);
  }

  /** Where the body of a response is not base64 it is written as it stands, byte for byte; an empty
      one writes nothing, and a base64 one what it decodes to. */
  lemma OtherBodiesAreRaw(body: string, i: nat)
    ensures body == "" ==> WrittenBody(body) == []
    ensures body != "" && Base64Decode(body).Some? ==> Base64Decode(body) == Some(WrittenBody(body))
    ensures Base64Decode(body).None? ==> |WrittenBody(body)| == |body|
    ensures Base64Decode(body).None? && i < |body| && body[i] as int < 256 ==> WrittenBody(body)[i] == body[i] as int
  {
    if body == "" {
      NothingDecodes();
    }
    if i < |body| {
      BytesAreCodes(body, i);
    }
  }

  // ---------------------------------------------------------------- headers

  function Join(values: seq<string>): string {
    if values == [] then ""
    else if |values| == 1 then values[0]
    else values[0] + ", " + Join(values[1..])
  }

  /** The values one after the other, with ", " between any two. */
  lemma {:induction false} JoinsAll(before: seq<string>, after: seq<string>, value: string)
    ensures Join([]) == "" && Join([value]) == value
    ensures before != [] && after != [] ==> Join(before + after) == Join(before) + ", " + Join(after)
  {
    if before != [] && after != [] {
      assert (before + after)[0] == before[0] && (before + after)[1..] == before[1..] + after;
      if |before| > 1 {
        JoinsAll(before[1..], after, value);
        assert before[0] + ", " + (Join(before[1..]) + ", " + Join(after)) == Join(before) + ", " + Join(after);
      } else {
        assert before[1..] + after == after;
      }
    }
  }

  function Lower(c: char): char {
    if 'A' <= c <= 'Z' then (c as int + 32) as char else c
  }

  /** `strings.ToLower`, for the ASCII letters that header names are made of. */
  function ToLower(s: string): string {
    seq(|s|, i requires 0 <= i < |s| => Lower(s[i]))
  }

  /** The same character, or the two cases of one letter. */
  predicate SameLetter(a: char, b: char) {
    a == b || ('A' <= a <= 'Z' && b as int == a as int + 32) || ('A' <= b <= 'Z' && a as int == b as int + 32)
  }

  predicate SameName(s: string, t: string) {
    |s| == |t| && forall i :: 0 <= i < |s| ==> SameLetter(s[i], t[i])
  }

  /** The identity headers, in any spelling. */
  predicate Identity(k: string) {
    SameName(k, "X-Dock-User") || SameName(k, "X-Dock-Email") || SameName(k, "X-Dock-Provider")
  }

  lemma SameLower(s: string, t: string)
    ensures ToLower(s) == ToLower(t) <==> SameName(s, t)
  {
    if ToLower(s) == ToLower(t) {
      assert |ToLower(s)| == |s| && |ToLower(t)| == |t|;
      forall i | 0 <= i < |s| ensures SameLetter(s[i], t[i]) {
        assert ToLower(s)[i] == ToLower(t)[i];
      }
    }
    if SameName(s, t) {
      forall i | 0 <= i < |s| ensures ToLower(s)[i] == ToLower(t)[i] {
        assert SameLetter(s[i], t[i]);
      }
    }
  }

  lemma IdentityIsLower(k: string)
    ensures Identity(k) <==> ToLower(k) in ["x-dock-user", "x-dock-email", "x-dock-provider"]
  {
    hide ToLower, SameName;
    LowerNames();
    SameLower(k, "X-Dock-User");
    SameLower(k, "X-Dock-Email");
    SameLower(k, "X-Dock-Provider");
  }

  lemma LowerNames()
    ensures ToLower("X-Dock-User") == "x-dock-user"
    ensures ToLower("X-Dock-Email") == "x-dock-email"
    ensures ToLower("X-Dock-Provider") == "x-dock-provider"
  {
  }

  /** One value for each header, several joined; the header map may be walked in any order. */
  method FlattenHeaders(headers: map<string, seq<string>>) returns (out: map<string, string>)
    ensures out.Keys == headers.Keys
    ensures forall k :: k in headers ==> out[k] == Join(headers[k])
  {
    out := map[];
    var todo := headers.Keys;
    while todo != {}
      invariant todo <= headers.Keys && out.Keys == headers.Keys - todo
      invariant forall k :: k in out ==> out[k] == Join(headers[k])
      decreases todo
    {
      var k :| k in todo;
      out := out[k := Join(headers[k])];
      todo := todo - {k};
    }
  }

  /** The headers of the forwarded message.  Whatever the client sent, in whatever spelling, the only
      identity header that is forwarded is the one naming the authenticated user; of the other headers
      only the two address headers are touched. */
  method ForwardHeaders(headers: map<string, seq<string>>, clientIP: string, user: string) returns (out: map<string, string>)
    ensures forall k :: k in out && Identity(k) ==> k == "X-Dock-User" && out[k] == user && user != ""
    ensures user != "" ==> "X-Dock-User" in out
    ensures "X-Real-IP" in out && out["X-Real-IP"] == clientIP
    ensures forall k :: !Identity(k) && k != "X-Real-IP" && k != "X-Forwarded-For" ==>
              (k in out <==> k in headers) && (k in out ==> out[k] == Join(headers[k]))
    ensures "X-Forwarded-For" in out <==> "X-Forwarded-For" in headers
    ensures "X-Forwarded-For" in headers ==>
              var values := headers["X-Forwarded-For"];
              out["X-Forwarded-For"] == if values != [] && values[0] != "" then values[0] else Join(values)
  {
    hide Identity, ToLower, Join;
    out := FlattenHeaders(headers);
    out := out["X-Real-IP" := clientIP];
    if "X-Forwarded-For" in headers && headers["X-Forwarded-For"] != [] && headers["X-Forwarded-For"][0] != "" {
      out := out["X-Forwarded-For" := headers["X-Forwarded-For"][0]];
    }
    AddressHeadersAreNoIdentity();
    ghost var all := out;
    var todo := out.Keys;
    while todo != {}
      invariant todo <= all.Keys && out.Keys <= all.Keys
      invariant forall k :: k in out ==> out[k] == all[k] && (Identity(k) ==> k in todo)
      invariant forall k :: k in all && (!Identity(k) || k in todo) ==> k in out
      decreases todo
    {
      var k :| k in todo;
      IdentityIsLower(k);
      if ToLower(k) in ["x-dock-user", "x-dock-email", "x-dock-provider"] {
        out := out - {k};
      }
      todo := todo - {k};
    }
    if user != "" {
      UserHeaderIsIdentity();
      out := out["X-Dock-User" := user];
    }
  }

  lemma AddressHeadersAreNoIdentity()
    ensures !Identity("X-Real-IP") && !Identity("X-Forwarded-For")
  {
    assert !SameLetter("X-Forwarded-For"[2], "X-Dock-Provider"[2]);
  }

  lemma UserHeaderIsIdentity()
    ensures Identity("X-Dock-User")
  {
  }
}
