# Nakadi plugin of the ZMON worker, modelled in Dafny

The Nakadi plugin lets ZMON checks talk to the Nakadi event-streaming
service. Its factory reads the plugin configuration once. It registers the
declared OAuth2 tokens with the token manager and then creates one client
per check context. A client sends authenticated GET and POST requests to
Nakadi and turns unexpected status codes into errors. On top of that it
offers two operations: subscription statistics and cursor distances.

The model has four modules:

- `Values` (`values.dfy`) holds `Option`, `Result` and `Value`. `Value` is a
  Python value built from JSON-like data. `VNone` stands for Python's `None`.
- `Strings` (`strings.dfy`) models the Python string operations the plugin
  uses. These are `str.split` with and without a limit, `join`, and the
  decimal rendering of a status code. Each comes with its round-trip lemmas.
- `NakadiClient` (`nakadi_client.dfy`) models the client (`NakadiWrapper`).
  It covers request shaping and the status check of `__request`, the error
  message, `subscription_stats` and `distance`. The outside world is an
  `Env` value. It holds the token lookup (`tokens.get`), the user agent and
  the server. The server is a function from the request sent to the
  response received, which is `(status, text, parsed JSON or None)`.
- `NakadiFactory` (`nakadi_factory.dfy`) models the factory
  (`NakadiWrapperFactory`). It is a class whose `Configure` method updates
  its fields. The global `tokens` module becomes a `TokenManager` object that
  records each `manage` call in order and whether `start` ran. The module
  also writes out the inverse of the `oauth2.tokens` format and proves the
  round trip in both directions.

`__request` changes local state step by step, so it is the method
`Request`. That method is proved equal to the function `Exchange`, which
`distance` and `subscription_stats` call. A client never changes after
creation, so `Client` is a datatype.

Four behaviours of the code are easy to miss:

- The paths passed to `__request` already start with `/`, and `__request`
  joins base and path with another `/`. The URLs are therefore
  `base//subscriptions/...` and `base//event-types/...`. `SubscriptionStats`
  and `DistanceSends` state this.
- `distance` does not need the begin and end lists to have equal length. It
  needs only as many end cursors as begin cursors and ignores the rest
  (`ExtraEndCursorsIgnored`). An empty begin list sends an empty batch,
  whatever the end argument is.
- A malformed token declaration stops `configure` partway through. The
  registrations already made stay in place. The `uid` token is then not
  registered and the token manager is not started.
- Raising `NakadiException` fails inside its own constructor with a
  TypeError, so an unexpected status never reaches the caller as a Nakadi
  error (see "## Findings"). `CheckAsWritten` models this. `Check`, which
  the rest of the client uses, models the intended error.

## Model

| member | source | states |
|---|---|---|
| `Strings.Split` | zmon_worker_monitor/builtins/plugins/nakadi.py:36 | `str.split(sep)` always yields at least one piece |
| `Strings.SplitPiecesFree` | zmon_worker_monitor/builtins/plugins/nakadi.py:36 | no piece of a split contains the separator |
| `Strings.SplitPiecesAvoid` | zmon_worker_monitor/builtins/plugins/nakadi.py:38 | a character absent from the string is absent from every piece |
| `Strings.JoinSplit` | zmon_worker_monitor/builtins/plugins/nakadi.py:36 | joining the pieces of a split with the separator gives back the string |
| `Strings.SplitJoin` | zmon_worker_monitor/builtins/plugins/nakadi.py:36 | splitting a join of separator-free pieces gives back the pieces (inverse of JoinSplit) |
| `Strings.JoinAvoids` | zmon_worker_monitor/builtins/plugins/nakadi.py:38 | a character in neither the pieces nor the separator is not in their join |
| `Strings.FirstIndex` | zmon_worker_monitor/builtins/plugins/nakadi.py:37 | the index found holds the character and no earlier position does |
| `Strings.SplitOnce` | zmon_worker_monitor/builtins/plugins/nakadi.py:37 | `split('=', 1)` gives one piece exactly when there is no `=`; otherwise two pieces, the first free of `=`, which rejoin to the input |
| `Strings.HeadBeforeFirst` | zmon_worker_monitor/builtins/plugins/nakadi.py:37 | for a `=`-free head, `split('=', 1)` of head + `=` + tail is exactly [head, tail] |
| `Strings.Decimal` | zmon_worker_monitor/builtins/plugins/nakadi.py:52 | the rendered status code is a non-empty digit string with no leading zero |
| `Strings.DecimalRoundTrip` | zmon_worker_monitor/builtins/plugins/nakadi.py:52 | reading the rendered digits back gives the status code |
| `Values.Items` | zmon_worker_monitor/builtins/plugins/nakadi.py:101-104 | `len` and indexing reach the elements of lists, tuples and strings only; a list or tuple reaches exactly its items, a string its one-character strings |
| `NakadiFactory.TokenManager.constructor` | zmon_worker_monitor/builtins/plugins/nakadi.py:31-42 | the `tokens` module that `configure` works on starts with no registrations and not started |
| `NakadiFactory.TokenManager.Manage` | zmon_worker_monitor/builtins/plugins/nakadi.py:38 | `tokens.manage` appends one registration and changes nothing else |
| `NakadiFactory.TokenManager.Start` | zmon_worker_monitor/builtins/plugins/nakadi.py:42 | `tokens.start` marks refreshing started and leaves the registrations alone |
| `NakadiFactory.ParsePart` | zmon_worker_monitor/builtins/plugins/nakadi.py:37-38 | a declaration yields a registration exactly when it contains `=`; otherwise it is the unpacking error for that declaration |
| `NakadiFactory.ParsePartMeaning` | zmon_worker_monitor/builtins/plugins/nakadi.py:37-38 | the token name is the `=`-free text before the first `=`; the scope list is non-empty; name + `=` + scopes joined by `,` rebuilds the declaration, and the scopes may themselves contain `=` |
| `NakadiFactory.ParseParts` | zmon_worker_monitor/builtins/plugins/nakadi.py:36-38 | the loop never registers more tokens than there are declarations |
| `NakadiFactory.ParsePartsPass` | zmon_worker_monitor/builtins/plugins/nakadi.py:36-38 | the loop runs to the end exactly when every declaration contains `=`; it then makes one registration per declaration, in input order |
| `NakadiFactory.ParsePartsStops` | zmon_worker_monitor/builtins/plugins/nakadi.py:36-38 | at the first declaration without `=` the loop fails with that declaration, having registered exactly the declarations before it, in order |
| `NakadiFactory.RegisterDeclarations` | zmon_worker_monitor/builtins/plugins/nakadi.py:35-38 | the loop appends to the token manager exactly the registrations that reading the declarations yields, then reports whether it ran to the end |
| `NakadiFactory.NakadiWrapperFactory.constructor` | zmon_worker_monitor/builtins/plugins/nakadi.py:16-19 | URL and default token name start unset |
| `NakadiFactory.Setting` | zmon_worker_monitor/builtins/plugins/nakadi.py:28-29 | `conf.get(key, '')`: the stored value when the key is present, otherwise the empty string; a non-empty result means the key is present |
| `NakadiFactory.Or` | zmon_worker_monitor/builtins/plugins/nakadi.py:48 | Python's `or` on strings: the first operand when it is non-empty, otherwise the second; empty only when both are |
| `NakadiFactory.ParseTokenConfiguration` | zmon_worker_monitor/builtins/plugins/nakadi.py:33-38 | an absent or empty `oauth2.tokens` registers nothing and passes; otherwise its `:`-parts are read in order, reading passes exactly when every part has an `=`, and then part i gives registration i |
| `NakadiFactory.NakadiWrapperFactory.Configure` | zmon_worker_monitor/builtins/plugins/nakadi.py:21-42 | stores `nakadi.url` and `nakadi.oauth2` (default empty); appends one registration per declaration and then `('uid', ['uid'])` last; starts the manager; with `oauth2.tokens` absent or empty, uid is the only registration; on a malformed declaration it fails after the earlier registrations, without uid and without start |
| `NakadiFactory.ParsedWritable` | zmon_worker_monitor/builtins/plugins/nakadi.py:36-38 | every registration read from a `:`-free declaration can be written back as a declaration |
| `NakadiFactory.ParseRender` | zmon_worker_monitor/builtins/plugins/nakadi.py:37-38 | writing a registration as `name=s1,s2` and reading it gives the registration back |
| `NakadiFactory.ReadWritten` | zmon_worker_monitor/builtins/plugins/nakadi.py:33-38 | writing any non-empty list of writable registrations as an `oauth2.tokens` value and reading it gives the same list, with no failure |
| `NakadiFactory.WriteRead` | zmon_worker_monitor/builtins/plugins/nakadi.py:33-38 | a value that reads without failure yields one writable registration per `:`-part, and writing them back gives the value |
| `NakadiFactory.NakadiWrapperFactory.Create` | zmon_worker_monitor/builtins/plugins/nakadi.py:44-48 | the URL is the context `url` unless empty, else the configured URL; the token name is the context `oauth2token`, else the configured name, else `uid`, so it is never empty |
| `NakadiClient.Message` | zmon_worker_monitor/builtins/plugins/nakadi.py:51-52 | the message starts with `Error ` followed by the verb name and ends with the response text |
| `NakadiClient.MessageIdentifiesError` | zmon_worker_monitor/builtins/plugins/nakadi.py:51-52 | for a given URL, the message determines the verb, the status code and the response text |
| `NakadiClient.Encode` | zmon_worker_monitor/builtins/plugins/nakadi.py:78-79 | a body is serialised to JSON exactly when it is a dict, list or tuple; the value is kept either way |
| `NakadiClient.Shape` | zmon_worker_monitor/builtins/plugins/nakadi.py:66-81 | URL is base + `/` + path; GET exactly when data is None, then with exactly Authorization (`Bearer` + the token looked up by name) and User-Agent and no body; otherwise POST with those headers plus `Content-Type: application/json` and the encoded body |
| `NakadiClient.Check` | zmon_worker_monitor/builtins/plugins/nakadi.py:82-84 | as intended (see "## Findings"): a status outside the expected codes is exactly the Nakadi error carrying verb, URL, status and text; otherwise the parsed body is returned, or a parse error when the body is not JSON |
| `NakadiClient.CheckAsWritten` | zmon_worker_monitor/builtins/plugins/nakadi.py:55-58 | as written, an unexpected status raises TypeError from the `NakadiException` constructor instead of the Nakadi error, and never yields a Nakadi error; an expected status is handled as by `Check` |
| `NakadiClient.AsWrittenForgetsResponse` | zmon_worker_monitor/builtins/plugins/nakadi.py:55-58 | as written, two responses with different unexpected statuses or texts give the caller the same failure, while `Check` tells them apart |
| `NakadiClient.AsWrittenServerError` | zmon_worker_monitor/builtins/plugins/nakadi.py:55-58 | a POST answered with 500 gives the TypeError as written and the Nakadi error carrying 500 and the text as intended |
| `NakadiClient.Exchange` | zmon_worker_monitor/builtins/plugins/nakadi.py:66-84 | one `__request` call: the URL is base + `/` + path, GET exactly when there is no data; it succeeds exactly on an expected status with a JSON body and returns that body; an unexpected status is exactly the Nakadi error for that verb and URL; an expected status with a non-JSON body is the parse error |
| `NakadiClient.Request` | zmon_worker_monitor/builtins/plugins/nakadi.py:66-84 | the step-by-step request (headers map updated for POST, verb and body chosen) gives the same result as the shaped request checked against its response |
| `NakadiClient.SubscriptionStats` | zmon_worker_monitor/builtins/plugins/nakadi.py:86-88 | a bodiless GET to base + `//subscriptions/{id}/stats`; it succeeds exactly on status 200 with a JSON body and then returns the parsed body; any other status is the Nakadi error for that GET; status 200 with a non-JSON body is the parse error |
| `NakadiClient.Pairs` | zmon_worker_monitor/builtins/plugins/nakadi.py:101-104 | the body has one entry per begin cursor, and entry i pairs `begin[i]` as initial with `end[i]` as final |
| `NakadiClient.DistanceBody` | zmon_worker_monitor/builtins/plugins/nakadi.py:96-104 | a dict begin gives the one-element body [{initial: begin, final: end}]; otherwise the body is built exactly when begin has a length and is empty, or end is indexable with at least as many entries; it is then the pairwise body |
| `NakadiClient.AllDistances` | zmon_worker_monitor/builtins/plugins/nakadi.py:110 | the distances are extracted exactly when every item is a dict with `distance`; item i gives distance i |
| `NakadiClient.Unbatch` | zmon_worker_monitor/builtins/plugins/nakadi.py:107-110 | for single cursors, the scalar `response[0]['distance']` when it exists; otherwise one distance per item of a list or tuple response, in response order; a dict or string response gives the empty list when empty and fails otherwise, and any other response fails |
| `NakadiClient.Distance` | zmon_worker_monitor/builtins/plugins/nakadi.py:90-110 | dict inputs give a scalar result and list inputs a list result; when the body cannot be built (`cursors_begin` without a length, `cursors_end` too short or not indexable) the call fails with `BadCursors` before any request |
| `NakadiClient.DistanceSends` | zmon_worker_monitor/builtins/plugins/nakadi.py:101-110 | the body is POSTed as JSON with the JSON content type to base + `//event-types/{type}/cursor-distances`, even when empty; a non-200 status is the Nakadi error for that POST; on 200 the distances come from the parsed body, and a body that is not JSON is the parse error |
| `NakadiClient.SingleIsBatchOfOne` | zmon_worker_monitor/builtins/plugins/nakadi.py:96-108 | single cursors send the same body as the one-element lists; when the batch call yields distances, the single call yields the first; transport and status errors agree |
| `NakadiClient.ExtraEndCursorsIgnored` | zmon_worker_monitor/builtins/plugins/nakadi.py:101-104 | appending end cursors beyond the begin cursors changes neither the body nor the result |
| `NakadiClient.DistanceExample` | zmon_worker_monitor/builtins/plugins/nakadi.py:96-108 | cursors at offsets 0 and 5 answered with `[{"distance": 5}]` give the scalar 5 |
| `NakadiClient.BatchDistancesInResponseOrder` | zmon_worker_monitor/builtins/plugins/nakadi.py:106-110 | a successful list call means status 200 and one distance per response item, in order |

## Left out

- Network I/O (`requests.get`, `requests.post`) is the `server` function of `Env`. Timeouts, connection errors and different answers to the same request are not modelled.
- The token library: `tokens.configure()` is not modelled as a step of its own. The `TokenManager` object stands for the token module as `configure` finds it, empty and not started. `tokens.get` is the opaque `tokenOf` lookup, and its failure for an unknown name is not modelled. Token refreshing is not modelled.
- `get_user_agent` is the opaque `userAgent` string. `json.dumps` is kept symbolic as `JsonText(value)`. `r.json()` is the response's parsed value, or `None` when the body does not parse.
- Logging and the `IFunctionFactoryPlugin` host lifecycle are not modelled. Outside `CheckAsWritten`, an unexpected status follows the intended behaviour described under "## Findings". The model's Nakadi error keeps the method, URL, status and text, and `Message` gives the text the exception was meant to carry. The stored response object `r` is not kept.
- Configuration and context values are strings. Before `configure` runs, the factory's URL and token name are `""` rather than Python's `None`. Both are falsy, so `create` picks the same fallbacks. The difference is that a URL of `None` would be written as `None/...` in the request URL.
- Python exceptions raised while `distance` builds the body (TypeError, IndexError, and KeyError for a string-keyed dict `cursors_end`) become `BadCursors`. Those raised while it reads the response (TypeError, IndexError, KeyError) become `MalformedResponse`. The Python exception class is not distinguished.
- Floats and integer-keyed dicts are not part of `Value`. Only lists, tuples and strings support `len` and indexing, so an integer-keyed dict used as `cursors_end` counts as not indexable.
- `subscription_id` and `event_type` are formatted into the path as strings, so values of other types are not modelled.
- The S3 plugin and `tests/test_s3.py` are not part of this model.

## Findings

| source | as written | input that shows it | evidently intended | confidence | as-written member | corrected member |
|---|---|---|---|---|---|---|
| zmon_worker_monitor/builtins/plugins/nakadi.py:57 | the `NakadiException` constructor passes its message to `Exception.__init__` as the keyword argument `message=`. That initialiser accepts no keyword arguments in Python 2.7 or 3, so `raise NakadiException(...)` at line 83 raises TypeError, and the status, text and `r` are lost | any status outside the expected codes, e.g. a POST answered with 500 | raise `NakadiException` carrying `_to_nakadi_message(method, url, r)` and the response | high; not executed | `NakadiClient.CheckAsWritten`, `NakadiClient.AsWrittenServerError` | `NakadiClient.Check` |
