# Dock, modelled and proved in Dafny

Dock is a gateway. Each *Shore* (a host running services) connects to it over one WebSocket; users'
HTTP requests and event streams are multiplexed over that WebSocket, and responses and frames come
back in whatever order the Shore sends them. This project models the parts of Dock whose correctness
depends on how steps of several goroutines compose, and the printer/parser pairs and tables around
them, and proves what the code promises. `dafny verify dfyconfig.toml` checks everything.

## How the model is built

**One connection** (`Tunnel.dfy`) is a transition system. An action is one uninterrupted piece of the
source: a critical section under the connection's mutex, one channel operation, one decision of a
`select`, the outcome of one WebSocket write. "Look up and delete under the lock" and the send or close
that follows outside the lock (registry.go:67-80, registry.go:100-123) are two actions. A run is any
sequence of possible actions, so the Shore may send any messages in any order and every interleaving of
the read loop, the request handlers, the stream handlers and the callers of `Close` is a run. A Go
channel is a bounded sequence with a closed flag. Sending on or closing a closed channel is a panic
(`Tunnel.Panics`). The read loop and the request and stream handlers all run in handlers of an
`http.Server` (main.go:425, shore_handler.go:105), and net/http recovers a handler's panic after its
deferred functions have run; so a panicking read loop goes on to its deferred Unregister and Close, and the run continues.
Message ids are not assumed to be distinct, except where a result says so.

**The gateway** (`Dock.dfy`) holds every connection ever built, the registry map and a clock; Register,
Unregister and a pass of the reaper are single actions because they run under the registry lock.
`EveryConnectionIsATunnel` shows that whatever the rest of the gateway does, each connection goes through
a run of `Tunnel`, so all results about those runs hold in the gateway.

**The objects** (`Connection.dfy`, `Registry.dfy`, `Accounts.dfy`) are `ShoreConnection`, `ShoreRegistry`
and `UserStore` written as the source writes them, with fields updated in place. Their methods are proved
to be the actions above, in order; map iterations pick their next key arbitrarily.

| file | content |
|---|---|
| `Tunnel.dfy` | actions and runs of one connection |
| `Requests.dfy` | responses: correlation, loss-freedom, accounting of table entries |
| `Streams.dfy`, `StreamHistory.dfy` | streams: who closes what, and what a browser is shown |
| `Progress.dfy` | every goroutine always has its next step, and what the Shore sends gets through |
| `ClosedSends.dfy` | exactly when a send meets a closed channel |
| `Dock.dfy` | the gateway: connections, registry, clock; each connection is a `Tunnel` |
| `Registration.dfy` | which connections can be found in the registry |
| `Heartbeat.dfy` | the reaper in real time |
| `Teardown.dfy` | closed connections, the deferred cleanup, and panics in the whole gateway |
| `Connection.dfy`, `Registry.dfy` | the two objects of registry.go |
| `OrderIndependence.dfy` | results of walking the registry map do not depend on the order |
| `Codecs.dfy`, `Text.dfy` | hexadecimal and base64 (RFC 4648, sections 8 and 4), string functions |
| `Sessions.dfy` | the session secret and session tokens |
| `Gateway.dfy` | routing, forwarded paths, bodies and headers |
| `Accounts.dfy` | the user table, sign-up and OAuth login |

## What the code does not do

Three natural claims are false of the code; the code is modelled as it is and the exact condition is
proved.

- A frame can be sent on a closed channel, which panics the read loop and ends its connection.
  `PanicsExactlyOnOverlap`: this happens if and only if `CloseStream`, called because a browser
  disconnected, deletes the entry and closes the channel between `DeliverFrame`'s lookup and its send.
  `OverlapPanics` is such a run. `PanicIsContained`: the deferred cleanup still goes through, and nothing
  else in the gateway is touched.
- An open connection that is being served can be missing from the registry, because `Unregister` deletes
  by name. `MissingExactlyWhenEvicted`: if and only if an older connection of the same name ran its
  deferred `Unregister` after this one registered. `LateCleanupLosesAShore` is such a run.
- A base64 secret can be misread as hexadecimal. `Base64Secret`: it is read correctly if and only if its
  encoding contains a character that is not hexadecimal. `Base64SecretMisread` is an instance.

Where the documents and the code differ, the code is followed: `resolveShore` has no lexicographic
fallback (gateway.go:214-219, against docs/hermit-federation-architecture.md:117-118), and the read loop
ignores a second `register` message (shore_handler.go:136-173, against
docs/hermit-federation-architecture.md:261-263).

## Model

| member | source | states |
|---|---|---|
| Requests.ResponsesCorrelate | registry.go:51-80 | For every run: a request's channel and handler only ever see responses with its id; the channel is sent to at most once and exactly if something was delivered; every send finds it open and empty, so the `default` arm discards nothing; the `!ok` arm of the handler can never be taken |
| Requests.FirstResponseWins | registry.go:67-80 | While a request is in the table no response with its id has arrived since it was issued; the one that reaches it is the first such response on the wire, however many follow |
| Requests.EveryRequestAccounted | registry.go:51-80 | Every issued request is in exactly one of: pending, in delivery, delivered, withdrawn by its own handler after a failed write or a timeout, displaced by another handler with the same id; each of the first three is equivalent to what the shared state shows, and with distinct ids nothing is displaced |
| Requests.NoDeadEntries | gateway.go:114-134 | An entry of `pending` whose handler has finished implies that the connection is closed |
| Streams.NoDeadEntries | gateway.go:155-189 | The same for `streams` |
| StreamHistory.OutputRefinesArrivals | registry.go:99-110 | For every run: what the handler wrote, then what is buffered, is in order the frames that were accepted; accepted, dropped and panicked frames, then the one in delivery, are in order all that arrived; the output is a subsequence of the arrivals, and the counts add up; at most one frame goes with a panic, and only if a handler with this id ended because its client left |
| StreamHistory.ArrivalsAreTheWindow | registry.go:84-123 | What arrives for a stream is exactly the frames with its id on the wire from the making of its table entry to its removal, which has one of four causes |
| StreamHistory.NormalEndShowsEverything | gateway.go:169-179 | A handler leaving by the `!ok` arm without overflow has written exactly the frames between its table insert and the `stream_end` that closed the stream (distinct ids) |
| StreamHistory.ClosedOnceAfterRemoval | registry.go:112-123 | In every run a stream channel is closed at most once; the step closing it finds it open and out of the table, and does not panic |
| Progress.RequestArms | gateway.go:120-134 | In every run, for a request in its select: a response in the channel can be taken, whatever else is ready, and ends it with exactly that response; the timer can fire at any moment; the `done` arm is ready if and only if the connection is closed; `!ok` never is |
| Progress.StreamArms | gateway.go:169-189 | In every run, for a stream in its select: a buffered frame can be written, whether or not the channel or the connection is closed, the oldest first; `!ok` is ready if and only if the channel is closed and empty; the client can leave at any moment; `done` is ready if and only if the connection is closed |
| Progress.RequestNeverStuck | registry.go:51-64 | A request handler outside its select can always go on, a write ending either way; a failed write and a timeout delete its id from the table |
| Progress.StreamNeverStuck | registry.go:84-123 | The same for a stream handler; one that cuts off a stream closes exactly the open channel it found |
| Progress.LoopNeverStuck | shore_handler.go:117-175 | In every run the read loop can receive any message whenever it reads and can finish whatever it is delivering, whatever the handlers do in between; once it has registered, requests and streams can come at any time |
| Progress.BufferedFramesGetThrough | gateway.go:169-179 | At any point of any run as many writes as there are buffered frames put out exactly those, in order; on a closed channel the handler then ends normally |
| Progress.ResponseGetsThrough | registry.go:67-80 | A response read for a request waiting in the table can be delivered and taken; it is what the handler then answers with |
| Progress.FrameGetsThrough | registry.go:100-110 | A frame read for a stream in the table can be delivered and written after the frames before it, unless 32 are waiting; then it is dropped and nothing else changes |
| Progress.EndGetsThrough | registry.go:113-123 | A stream_end lets the handler write everything that was waiting and then ends it |
| Progress.GatewayNeverStuck | shore_handler.go:102-175 | In the gateway a connection can register exactly when it has not, unregister exactly when its loop is over, have a ping taken exactly when it reads, which sets its ping time, and do anything else exactly when its own state allows, touching nothing but itself |
| Progress.TimeAndReaperNeverStuck | registry.go:237-258 | A pass of the reaper, the passing of time and the building of a connection with a non-empty name are always possible; a new connection counts as heard of now |
| ClosedSends.PanicsExactlyOnOverlap | registry.go:99-123 | At any point of any run the next action panics if and only if it is a DeliverFrame send whose channel was cut off and closed by a disconnecting client's handler since the lookup, with no other read-loop step in between; the panic takes the read loop to its deferred cleanup and changes nothing else |
| ClosedSends.PanicsOnlyOnce | shore_handler.go:110-115 | A connection panics at most once in its life |
| ClosedSends.OverlapPanics | gateway.go:180-183 | An eight-action run with that overlap is possible and panics |
| Teardown.PanicsExactlyOnOverlap | registry.go:99-123 | In any run of the whole gateway an action panics on a connection if and only if that overlap has occurred on it; the registry, the clock and all other connections are as they were before |
| Teardown.CleanupGoesThrough | shore_handler.go:110-115 | From any reachable state the deferred function of a read loop that has returned or panicked can run to its end; it removes the name and closes this connection, and nothing else changes |
| Teardown.PanicIsContained | shore_handler.go:110-115 | Whatever the gateway does after a panic, the loop stays over, its cleanup goes through as above, and then every handler on the connection finishes |
| Teardown.NoStrandedWaiter | shore_handler.go:110-115 | In every run, panics included: on a closed connection every request and stream handler, in its select or not, ends by at most two steps of its own, for either outcome of a write it is in, without a panic; a stopped connection is closed; and a read loop that has returned or panicked gets its connection there by its deferred cleanup |
| Teardown.ClosedForGood | registry.go:132-138 | Once closed a connection stays closed in every continuation, whoever calls Close again |
| Dock.EveryConnectionIsATunnel | shore_handler.go:102-115 | The events of one connection within any run of the gateway form a run of `Tunnel` ending in that connection's state |
| Dock.RunKeeps | registry.go:157-175 | In every run each registry entry is stored under its own name, is open, and its handler has not yet run its deferred Unregister; unregistered connections are untouched and stopped ones closed |
| Registration.RoutableIsOpen | registry.go:226-235 | Whatever GetByOwner returns in a reachable state has the asked name and owner, is open and still served; and an owner is never refused an entry under its name |
| Registration.ReplacedIsClosed | registry.go:157-167 | In every run registering a connection closes the one that had its name and no other, and leaves all other names as they were |
| Registration.MissingExactlyWhenEvicted | registry.go:169-175 | An open, still served connection is missing from the registry if and only if a same-name connection that had registered before it ran Unregister after it registered |
| Registration.RegisteredIsNewest | registry.go:157-167 | The registered connection of a name is the one of that name that registered last |
| Registration.RegisteredExactlyWhileServing | shore_handler.go:102-115 | In runs where handlers of one name never overlap, a connection is registered if and only if its handler is between Register and Unregister and it is open |
| Registration.OrphansAreLeftAlone | registry.go:246-258 | A connection missing from the registry is never registered again and is never closed by Register or the reaper, only by its own deferred Close |
| Registration.LateCleanupLosesAShore | shore_handler.go:110-115 | A six-action run leaves a reconnected Shore open, reading and unregistered |
| Heartbeat.ReapExactly | registry.go:246-258 | One pass keeps exactly the entries not older than 45 s, closes exactly the connections of the others, and changes nothing else |
| Heartbeat.PingAgeBounded | registry.go:237-258 | With passes at most 15 s apart and registration within 45 s of building, a registered Shore's ping age is at most 45 s plus the time since the last pass, hence at most 60 s, and at most 45 s right after a pass |
| Heartbeat.PunctualIsNeverReaped | registry.go:246-258 | A Shore never silent for more than 45 s, by the clock and pings of the run, is left alone by every pass of the reaper |
| Heartbeat.TwoLostPingsAreSurvived | shore_handler.go:138-139 | A Shore whose pings are due every 15 s from its building, and of which at least one in any three consecutive ones arrives, is left alone by every pass of the reaper, at whatever moments the passes come |
| Heartbeat.BoundaryIsStrict | registry.go:252-252 | A registered Shore silent for exactly 45 s survives a pass; one a nanosecond later removes and closes it |
| Connection.ShoreConnection.constructor | shore_handler.go:90-101 | A new connection is the initial state of `Tunnel` |
| Connection.ShoreConnection.SendHTTPRequest | registry.go:51-64 | New request and table as a result of the two critical sections around the write, for both outcomes of the write |
| Connection.ShoreConnection.DeliverResponse | registry.go:67-80 | The entry is gone and its channel holds exactly this response, or nothing changed; the lookup and the send as two actions |
| Connection.ShoreConnection.OpenStream | registry.go:84-97 | New stream and table for both outcomes of the write |
| Connection.ShoreConnection.DeliverFrame | registry.go:100-110 | The frame is appended to its stream's channel unless 32 are waiting |
| Connection.ShoreConnection.CloseStream | registry.go:113-123 | The entry is gone and its channel, open before, is closed |
| Connection.ShoreConnection.HangUp | gateway.go:180-183 | A disconnecting client's handler cuts its stream off and ends |
| Connection.ShoreConnection.CancelPendingRequest | registry.go:126-130 | The entry is gone and nothing else changed |
| Connection.ShoreConnection.TimeOut | gateway.go:128-130 | The timer arm: cancel, then end with a timeout |
| Connection.ShoreConnection.Close | registry.go:133-138 | The connection is closed, a second call has no effect |
| Connection.ShoreConnection.Dispatch | shore_handler.go:136-173 | One message of each kind has the effect of its critical sections, and only a failed pong stops the loop |
| Connection.ShoreConnection.RunReadLoop | shore_handler.go:117-175 | The whole loop, for any messages, has the effect of their critical sections in order and ends ready for the deferred cleanup |
| Registry.ShoreRegistry.constructor | registry.go:147-153 | A new registry is the initial state of `Dock` |
| Registry.ShoreRegistry.Build | shore_handler.go:83-101 | An empty name is refused; otherwise a new connection that nobody has touched |
| Registry.ShoreRegistry.Register | registry.go:157-167 | The map gains the connection under its name, which is open; a previous one of that name is closed: one action of `Dock` |
| Registry.ShoreRegistry.Unregister | registry.go:170-175 | Whatever is stored under the name is removed |
| Registry.ShoreRegistry.Cleanup | shore_handler.go:111-115 | The deferred function is Unregister by name and then Close, as two actions |
| Registry.ShoreRegistry.GetByOwner | registry.go:227-235 | Agrees with the lookup used by the routing results |
| Registry.ShoreRegistry.ListByOwner | registry.go:214-224 | The owner's connections, exactly, each name once, in the order in which the map was walked |
| Registry.ShoreRegistry.Default | registry.go:187-200 | For whatever order the walk takes, the loop ends with the connection of the least name, and with none if and only if there is none |
| Registry.ShoreRegistry.Reap | registry.go:246-258 | Deleting while walking the map in any order and closing connection objects on the way gives exactly one pass of the reaper |
| Registry.ShoreRegistry.NamesAreKeys | registry.go:157-167 | Every registered connection is stored under its own name |
| Text.LessIsLexicographic | registry.go:187-200 | Go's order of strings: the first differing character decides, a proper prefix comes first |
| OrderIndependence.DefaultSameForAllOrders | registry.go:185-200 | Default gives the lexicographically first connection for every order of the map |
| OrderIndependence.GetAgreesWithList | registry.go:213-235 | GetByOwner(owner, name) is what searching ListByOwner(owner) for the name gives, for every order |
| OrderIndependence.StatusSameForAllOrders | main.go:282-305 | The status page shows the same connections in the same order for every order of the map and every result an unstable sort may give |
| Codecs.HexRoundTrip | main.go:170-171 | Hex decoding undoes hex encoding; encodings are lower case |
| Codecs.HexDecodes | main.go:170-171 | Exactly the texts of even length over hex digits are accepted, and the result is half as long |
| Codecs.HexDecodedAt | main.go:170-171 | Each decoded byte has the values of its two digits |
| Codecs.HexAlphabet | main.go:170-171 | The digits are 0-9 and a-f, and decoding takes A-F as well (section 8 of RFC 4648) |
| Codecs.Base64RoundTrip | main.go:172-173 | Base64 decoding undoes base64 encoding, for all bytes |
| Codecs.Base64Alphabet | main.go:172-173 | The digits and their values are those of table 1 of RFC 4648 |
| Codecs.GroupIsBits | main.go:172-173 | Four digits are the 24 bits of three bytes, most significant first |
| Codecs.Base64Decodes | main.go:172-173 | Exactly the texts are accepted that, line breaks aside, are groups of four digits with at most two '=' at the end; and how many bytes they stand for |
| Codecs.Base64DecodedAt | main.go:172-173 | Each decoded byte, from the two digits it comes from, canonical or not |
| Codecs.NewlinesAreSkipped | main.go:172-173 | A line break anywhere makes no difference |
| Codecs.PaddedUnlessMultipleOfThree | main.go:157-161 | An encoding contains '=' if and only if the length is not a multiple of three |
| Sessions.HexSecret | main.go:162-182 | A non-empty secret given in hex is read exactly |
| Sessions.Base64Secret | main.go:162-182 | A non-empty secret given in base64 is read exactly if and only if its encoding contains a non-hex character, which it does unless its length is a multiple of three |
| Sessions.Base64SecretMisread | main.go:157-161 | The exception occurs: three bytes encoded as "0000" are read as two zero bytes |
| Sessions.RawSecret | main.go:174-176 | A text that neither decoder accepts is the secret itself, byte for byte |
| Sessions.SecretForms | main.go:162-182 | Hex is tried before base64; a configured secret does not depend on the generated one, which is used if and only if none is configured |
| Sessions.TokenRoundTrip | main.go:186-229 | A token for any non-empty username gives back that username until maxAge after the second in which it was made, and nothing after that |
| Sessions.TokenLifetime | main.go:186-229 | A token made at real time t is accepted throughout [t, t+maxAge-1s] and refused after t+maxAge |
| Sessions.AcceptedTokensAreSigned | main.go:196-229 | A token is accepted for a user if and only if it is that non-empty user ":" timestamp "." followed by the lower-case hex HMAC, under the secret of the process, of what precedes the dot, and is not too old |
| Sessions.CreatedTokensAreSigned | main.go:186-192 | A created token has that form for its own user, second and secret |
| Sessions.OtherSecretsAreRefused | main.go:205-210 | A token made under one secret is accepted under another if and only if it is fresh and both have the same HMAC for its payload |
| Sessions.TokensSurviveRestart | session_secret_test.go:53-76 | With a persistent 32-byte secret in base64, a token signed by one process is accepted by the next, whatever ephemeral secrets they would generate |
| Text.ScanPrinted | main.go:187-221 | Scanning with %d undoes printing with %d for every int64 |
| Text.ScanStops | main.go:220-221 | Scanning stops at the first character that is no digit, and leaves zero for a number beyond int64 |
| Text.ScanSigned | main.go:220-221 | The same after a sign |
| Text.ScanNothing | main.go:220-221 | Without a digit where one is due the timestamp stays zero |
| Text.ScanSkipsBlanks | main.go:220-221 | Blanks in front make no difference |
| Text.PrintsDigits | main.go:187-188 | The decimal digits, without a leading zero |
| Gateway.StickyRouting | gateway.go:192-227 | Under any connects and disconnects each request goes to the user's connected Shore named by its first segment, else to the Shore this browser last named successfully if it is still connected and the user's, else to none |
| Gateway.RoutedShoreIsServed | gateway.go:192-227 | In every reachable state of the gateway the Shore so picked carries the named segment, belongs to the user, is open and is still served |
| Gateway.NamedShoreIsRouted | gateway.go:202-212 | Every path "/segment" and tail whose segment names a connected Shore of the user goes there, whatever the cookie, as tail and query |
| Gateway.CookieRoutedPathsAreUntouched | gateway.go:53-63 | In a browser session a path whose segment names no connected Shore of the user goes to the Shore last named, if it is there, and is forwarded as it is, with its query if it has one |
| Gateway.UnmatchedPathsAreUntouched | gateway.go:53-63 | The same for any path at all that no non-empty segment matches |
| Gateway.CookieIsLastMatch | gateway.go:39-51 | The cookie a browser holds is the segment of its last successful prefix match, found without looking at cookies |
| Gateway.PrefixStripping | gateway.go:53-63 | A matched absolute path is the segment plus a tail that is empty or begins with '/'; the tail, or "/", is forwarded, followed by "?" and the query if there is one; the path is recoverable up to the bare-root case |
| Gateway.BodiesAreTransparent | gateway.go:95-103 | What the Shore decodes is the first min(length, 10 MB) bytes, and null if and only if that is nothing; an encoded response body is written back byte for byte, never through the raw fallback |
| Gateway.OtherBodiesAreRaw | gateway.go:238-245 | A response body is written decoded if it is base64, and byte for byte as it stands if it is not |
| Gateway.JoinsAll | gateway.go:250-256 | Joined values are the values in order with ", " between any two |
| Gateway.FlattenHeaders | gateway.go:250-256 | Every header keeps its name and its values joined, for every order of the map |
| Gateway.ForwardHeaders | gateway.go:65-85 | Whatever the client sends, in whatever case its letters are, none of the three identity headers is forwarded except X-Dock-User with the authenticated user; other headers than the two address headers are untouched |
| Accounts.UserStore.CreateUser | users.go:67-78 | Fails exactly if the username is taken, else appends the row |
| Accounts.UserStore.SetAdmin | users.go:96-100 | The rows with that username become administrators; no other row and no other field changes |
| Accounts.UserStore.FreeUsername | main.go:562-569 | The loop returns the first unused name of base, base2, base3, ... after at most one lookup more than there are users |
| Accounts.Pigeonhole | main.go:562-569 | If the first n candidates are all taken there are at least n users |
| Accounts.SignUp | main.go:474-505 | The exact condition of each answer; on success a row with exactly the given name, address and hash is added, otherwise the table is untouched |
| Accounts.OAuthCallback | main.go:546-588 | Always a session: for the account of a known identity, the table untouched; else for a new account with the reported address and no password under the first free name built on nick name, name or "user-" and id |
| Accounts.SignupReplies | main.go:474-505 | The same for sign-ups as a statement about tables, for every table |
| Accounts.LoginReplies | main.go:546-588 | The same for OAuth logins |
| Accounts.SignupIsForNewUsers | main.go:488-492 | In every run whoever gets a session for signing up had no account before, and has one after |
| Accounts.AccountInvariant | main.go:488-500 | After every run of the handlers usernames are unique, every OAuth identity has at most one account, and the administrators are exactly the first account and the one named by a non-empty DOCK_ADMIN_USER |
| Accounts.SameUserEveryTime | main.go:546-587 | Logging in again with the same OAuth identity yields the same username, whatever happened in between |

## Left out

- WebSocket, JSON, TLS and certificate checks, OAuth, bcrypt, SQLite: foreign libraries. Messages are
  datatypes, the outcome of a write is arbitrary, HMAC is an arbitrary function, hashing a password
  either yields a hash or fails, and the table is a sequence.
- Database errors: the free-username loop keeps looking while lookups fail, so its termination is stated
  for lookups that answer. Concurrent sign-ups are not modelled; the handlers run one after the other.
- Row ids, creation times and ListUsers: no property depends on them.
- The timer of a request: a waiting handler may time out at any moment, not only after 30 s.
- Ticker drift and a reaper that is late: PingAgeBounded assumes passes at most 15 s apart.
- Jitter of pings: TwoLostPingsAreSurvived is about pings that arrive when they are due; for any other
  arrival times PunctualIsNeverReaped says what is needed.
- `handleSSERequest` and the select of `routeToShore` as loops: they wait for other goroutines, so they
  appear as actions of `Tunnel` rather than as methods.
- The http.Flusher check, response headers (their canonical spelling is net/textproto's), cookie
  attributes and the sanitising of cookie values.
- The choice between the certificate's name and the register message's name (shore_handler.go:75-82):
  the model starts from the chosen name.
- net/http's recovery of panicking handlers: taken as it documents it.
- Data races on `LastPing`: each read and write is one step.
- Letters beyond ASCII in header names, which net/http does not accept.
- Unicode blanks before the number in a token's timestamp; saturation of durations beyond 292 years.
- Login page, landing page, logging, environment reading, listeners and scripts: configuration and I/O.
