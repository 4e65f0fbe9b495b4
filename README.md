# RESTCONF client: proxy rewriting and console paths, in Dafny

This project models the logic of a small RESTCONF client and proves properties
about it. The client has two parts: a reverse proxy written in Go and a React
console.

The proxy:

- forwards `/restconf/data` requests to an upstream server;
- rewrites the path;
- copies headers in both directions and removes the hop-by-hop headers of
  section 13.5.1 of RFC 2616;
- decides which Authorization header goes upstream and fills in a default
  Accept header;
- redacts Authorization lines from the request dump it logs.

The console:

- joins a node path onto the data base URL (`buildUrl`);
- loads a node into a text editor and saves it back;
- renders the data tree as nested lists of buttons, where each button selects
  a path.

Files:

- `text.dfy` (module `Text`): the string functions of Go's `strings` package
  and of JavaScript that the code uses, on `seq<char>`. It also proves the
  Split/Join round trip and the decimal round trip of array indices.
- `http_header.dfy` (module `HttpHeader`): Go's `http.Header` as a class over a
  map from canonical names to value lists. Add, Set, Del and Get use
  `textproto.CanonicalMIMEHeaderKey`.
- `proxy.dfy` (module `Proxy`): `backend/main.go`. It covers the target URL,
  `copyHeaders` (a nested loop), hop-by-hop removal (a loop of `Del`), the
  upstream header rules and `filterDump` (an in-place loop over an array of
  lines). Each method is proved against a function: `CopiedInto`,
  `WithoutHop`, `UpstreamHeaders` and `RedactDump`. The lemmas state what
  those functions guarantee.
- `json.dfy` (modules `Json` and `Fetch`): JSON values, `typeof` and
  truthiness, and the settled outcome of a `fetch`.
- `editor.dfy` (module `Editor`): `buildUrl`, plus a class holding the
  editor's `path`, `raw` and `status` with `loadPath`, `save` and the path
  effect as methods.
- `explorer.dfy` (module `Explorer`): `renderNode` as a pure function from a
  JSON value to a tree of (key, path, nested list) entries, plus a class
  holding `tree`, `loading` and `error` with `loadRoot` as methods.

## Model

| member | source | states |
|---|---|---|
| Proxy.TargetUrl | backend/main.go:73-76 | The target keeps the base URL's scheme, host and fragment. Its path is `TargetPath`, the trimmed base path followed by the incoming path. Its query is the incoming raw query, verbatim. |
| Proxy.TargetPath | backend/main.go:73-75 | An incoming path starting with "/restconf" is appended after that prefix. Any other incoming path is appended whole. In both cases it goes after the base path with its trailing slashes trimmed. |
| Proxy.TargetPathIgnoresTrailingSlashes | backend/main.go:75 | `TrimRight` drops any number of trailing slashes of the base path: adding n slashes to the base path does not change the target path. |
| Proxy.TargetPathCases | backend/main.go:73 | Only one "/restconf" is removed: whatever follows the first one, a second "/restconf" included, is appended as it is. |
| Proxy.TargetUrlExample | backend/main.go:70-76 | A variant of the handler comment's example, with a trailing slash on the base path and a query: "/restconf/data/ietf-interfaces/interfaces" against base path "/restconf/" gives that same path, and the query is carried over. |
| Proxy.CopiedInto | backend/main.go:142-151 | Under every name, the copy holds `dst`'s values followed by `src`'s, or by nothing for a Host name. A name is present exactly when it was in `dst` or brings at least one value. |
| Proxy.CopyHeaders | backend/main.go:142-152 | For any visiting order of `src`'s names, `dst` ends as `CopiedInto(src, old dst)` and keeps every name canonical. |
| Proxy.AddAll | backend/main.go:148-150 | The inner loop appends the values of one name, in order, after the values `dst` already had. |
| Proxy.CopiedIntoOneMore | backend/main.go:143-151 | Copying one more source name adds exactly that name's appends, or nothing for a Host name. This is why every visiting order gives the same result. |
| Proxy.CopiedIntoKeepsDestination | backend/main.go:144-150 | A Host name keeps `dst`'s values exactly. Under every name, `dst`'s old values stay in front of the copied ones. |
| Proxy.WithoutHop | backend/main.go:15-24 | None of the eight hop-by-hop names is left. Every other name keeps its values. |
| Proxy.RemoveHopHeaders | backend/main.go:91-93 | The `Del` loop over `hopHeaders` leaves exactly `WithoutHop` of the header, which is still canonical. |
| Proxy.TeIsHopKey | backend/main.go:20 | "TE" is removed under its stored name "Te". |
| Proxy.UpstreamHeaders | backend/main.go:89-109 | The upstream header holds no name that was not incoming, except Authorization and Accept. |
| Proxy.UpstreamHeadersCanonical | backend/main.go:89-109 | When the incoming names are canonical, as Go's server delivers them, the upstream names are canonical too. |
| Proxy.TrailerIsNotHopKey | backend/main.go:21 | The list says "Trailers", but the field is "Trailer" (section 14.40 of RFC 2616), so "Trailer" is not among the names removed. |
| Proxy.TrailerIsForwarded | backend/main.go:21 | A Trailer header goes upstream with exactly its incoming values. |
| Proxy.UpstreamHasNoHopOrHost | backend/main.go:89-93 | No hop-by-hop name and no name that lower-cases to "host" reaches the upstream request. |
| Proxy.UpstreamAuthorization | backend/main.go:95-104 | An upstream user set means Authorization is exactly the basic credential, whatever `forwardAuth` is. With no upstream user, the incoming values go upstream when `forwardAuth` is on and none go when it is off. |
| Proxy.UpstreamAccept | backend/main.go:106-109 | Accept becomes the default only when its first value is empty or it has none. Otherwise the incoming values stay untouched. |
| Proxy.UpstreamOtherHeaders | backend/main.go:89-109 | Every other name goes upstream with exactly its incoming values. |
| Proxy.AuthorizationIsCanonical | backend/main.go:100 | `Del("Authorization")` and `SetBasicAuth` act on the stored name "Authorization". |
| Proxy.AcceptIsCanonical | backend/main.go:107-108 | `Get("Accept")` and `Set("Accept", …)` act on the stored name "Accept". |
| Proxy.ForwardRequestHeaders | backend/main.go:89-109 | Copy, hop removal, the Authorization rules and the Accept default, run in the fresh request header, produce exactly `UpstreamHeaders`. |
| Proxy.ForwardResponseHeaders | backend/main.go:124-130 | The response loses its hop-by-hop names, and what remains is appended to the client response's header. |
| Proxy.ResponseHasNoUpstreamHop | backend/main.go:124-130 | Under a hop-by-hop name, the client response holds only what it held before the copy. |
| Proxy.AuthorizationLineIff | backend/main.go:159 | A line is redacted exactly when its first 14 characters after leading white space spell "authorization:" in any case. Trailing white space never matters. |
| Proxy.RedactionIsAuthorizationLine | backend/main.go:159-160 | The replacement line passes the test itself. |
| Proxy.RedactDump | backend/main.go:155-164 | Redaction keeps the number of line breaks of the dump. |
| Proxy.FilterDump | backend/main.go:155-164 | The in-place loop over the split lines returns `RedactDump(dump)`. |
| Proxy.RedactDumpLines | backend/main.go:157-163 | The result has as many "\n"-separated lines as the dump. Each Authorization line becomes exactly "Authorization: REDACTED", and every other line is unchanged. |
| Proxy.RedactDumpIdempotent | backend/main.go:157-163 | Filtering a filtered dump changes nothing. |
| Text.Split | backend/main.go:157 | There is at least one part, no part holds the separator, and joining the parts gives the string back. |
| Text.SplitOfJoin | backend/main.go:157-163 | Splitting undoes joining when no part holds the separator. |
| Text.TrimRightChar | backend/main.go:75 | The result is a prefix that does not end in the character, and everything removed was that character. |
| Text.TrimPrefix | backend/main.go:73 | The prefix is removed once when present, and the string is unchanged otherwise. |
| Text.TrimLeftSpaceShape | backend/main.go:159 | `TrimLeftFunc(s, unicode.IsSpace)` keeps a suffix that does not start with white space, and it removes only white space. |
| Text.TrimRightSpaceShape | backend/main.go:159 | `TrimRightFunc(s, unicode.IsSpace)` keeps a prefix that does not end with white space, and it removes only white space. |
| Text.TrimSpaceShape | backend/main.go:159 | `TrimSpace` keeps one contiguous slice that neither starts nor ends with white space, and everything outside it is white space. |
| Text.ToLower | backend/main.go:145 | Lower-casing is rune by rune, so the length is kept. |
| Text.ToLowerCases | backend/main.go:145 | No ASCII capital is left. Each ASCII capital becomes its small letter, and every other ASCII character is kept. |
| Text.ToLowerIdempotent | backend/main.go:159 | Lower-casing twice is lower-casing once. |
| Text.Join | backend/main.go:163 | Joining parts that hold no separator puts exactly one separator between each two parts. |
| HttpHeader.CanonicalKey | backend/main.go:92 | The length is kept, and a name with a non-token character is left as written. |
| HttpHeader.CanonicalKeyOnlyChangesCase | backend/main.go:92 | Canonicalising changes only the case of ASCII letters. |
| HttpHeader.CanonicalKeyIdempotent | backend/main.go:92 | Canonicalising a canonical name changes nothing, so `Del` and `Get` on a stored name find it. |
| HttpHeader.Header.constructor | backend/main.go:83 | A new request starts with an empty header, which is canonical. |
| HttpHeader.Header.Add | backend/main.go:149 | The value is appended to the values of the canonical name, and no other name changes. |
| HttpHeader.Header.Del | backend/main.go:92 | The canonical name and its values are removed, and no other name changes. |
| HttpHeader.Header.Set | backend/main.go:108 | The canonical name's values become just the new value. |
| HttpHeader.Header.Get | backend/main.go:107 | Returns the first value of the canonical name, or "" when the name has no value. |
| HttpHeader.CanonicalKeyExamples | backend/main.go:20 | "TE" is stored as "Te". A name with a non-token character is left as written. |
| Editor.DropTrailingSlash | frontend/src/components/Editor.jsx:7 | A trailing slash that is present is removed, exactly one. Any other string is unchanged. |
| Editor.DropLeadingSlash | frontend/src/components/Editor.jsx:8 | A leading slash that is present is removed, exactly one. Any other string is unchanged. |
| Editor.BuildUrl | frontend/src/components/Editor.jsx:6-10 | There are four cases: a slash at the end of the base, at the start of the path, both, or neither. In each, there is exactly one slash between base and path. |
| Editor.BuildUrlRemovesOneSlash | frontend/src/components/Editor.jsx:7-8 | Only one slash is removed on each side, so doubled slashes survive into the URL. |
| Editor.BuildUrlLength | frontend/src/components/Editor.jsx:6-10 | The URL's length is within one of the combined length of base and path. |
| Editor.ExplorerPathUrl | frontend/src/components/Editor.jsx:24 | A path starting with "/" is appended to "/restconf/data" exactly as it is. |
| Editor.BuildUrlExample | frontend/src/components/Editor.jsx:6-10 | `buildUrl("/restconf/data", "/a/b")` is "/restconf/data/a/b". |
| Editor.SaveStatusDistinct | frontend/src/components/Editor.jsx:57-60 | "Saved successfully" differs from every "Save failed: …" line. |
| Editor.EditorState.constructor | frontend/src/components/Editor.jsx:13-14 | `raw` and `status` start empty. |
| Editor.EditorState.LoadPath | frontend/src/components/Editor.jsx:20-39 | The node is fetched at `buildUrl(RESTCONF_DATA, path)` and `status` is cleared. On success `raw` is the pretty-printed value. Otherwise `raw` is kept and `status` is "Failed to load: " followed by the message. |
| Editor.EditorState.PathChanged | frontend/src/components/Editor.jsx:16-18 | A load happens exactly when the new path is non-empty. An empty path changes neither `raw` nor `status`. |
| Editor.EditorState.Edit | frontend/src/components/Editor.jsx:78 | Typing sets `raw` and nothing else. |
| Editor.EditorState.Save | frontend/src/components/Editor.jsx:41-61 | `raw` never changes. Unparsable text sends nothing and sets "Save failed: " followed by the parse message. Otherwise the serialised value is PUT to the node's URL, and `status` is "Saved successfully" for an ok response or "Save failed: " followed by "HTTP <status>" or the network message. |
| Fetch.JsonOf | frontend/src/components/Editor.jsx:26-34 | A value comes out exactly when the response is ok and its body parses. Otherwise the message is the rejection, "HTTP <status>" or the parse error. |
| Fetch.StatusError | frontend/src/components/Editor.jsx:48-57 | There is no error exactly when the response is ok. Otherwise the error is the rejection or "HTTP <status>". |
| Fetch.HttpError | frontend/src/components/Editor.jsx:32 | The message is "HTTP " followed only by decimal digits. |
| Fetch.HttpErrorStatus | frontend/src/components/Editor.jsx:32 | The status can be read back from "HTTP <status>". |
| Fetch.HttpErrorInjective | frontend/src/components/Editor.jsx:57 | Distinct statuses give distinct messages. |
| Explorer.Keys | frontend/src/components/Explorer.jsx:36 | `Object.keys` gives an object's member names in order, an array's indices "0", "1", … as decimal text, and no key for anything else. |
| Explorer.RenderNode | frontend/src/components/Explorer.jsx:31-53 | Exactly objects and arrays render a list. The list has one entry per key, in key order, keyed by it, with the path "parent/key". |
| Explorer.RenderEntry | frontend/src/components/Explorer.jsx:36-47 | An entry carries its key and the path "parent/key". It has a nested part exactly when the value's `typeof` is "object". |
| Explorer.RenderNodeIsList | frontend/src/components/Explorer.jsx:32 | Only objects and arrays render a list. Null and scalars render nothing. |
| Explorer.EntryPerKey | frontend/src/components/Explorer.jsx:36-37 | There is one entry per key, in key order, whose path is the parent path, "/" and the key. |
| Explorer.NestedOnlyForObjects | frontend/src/components/Explorer.jsx:43-45 | An entry has a nested part exactly when its value has type "object". For null that part is empty. |
| Explorer.RenderNodePathsExtend | frontend/src/components/Explorer.jsx:37-45 | At every depth, a path is its parent's path, "/" and its key. |
| Explorer.RootPathsStartWithSlash | frontend/src/components/Explorer.jsx:61 | From the root "", every rendered path starts with "/". |
| Explorer.SlashDepth | frontend/src/components/Explorer.jsx:37-45 | When no key holds a "/", the number of slashes in a path equals its nesting depth. |
| Explorer.SiblingPathsDistinct | frontend/src/components/Explorer.jsx:36-37 | Sibling entries have different paths, for array indices and for distinct member names. |
| Explorer.KeyWithSlashCollides | frontend/src/components/Explorer.jsx:37 | Keys are not escaped: a key "a/b" and a key "b" under "a" get the same path "/a/b". |
| Explorer.ListLeafPath | frontend/src/components/Explorer.jsx:31-53 | A leaf in the first element of a list in a container gets the path "/container/list/0/leaf". |
| Explorer.ExplorerState.constructor | frontend/src/components/Explorer.jsx:7-9 | The tree starts as null, loading is off and the error line is empty. |
| Explorer.ExplorerState.View | frontend/src/components/Explorer.jsx:61 | A list is shown exactly when the tree is an object or an array. That list is `renderNode(tree, "")`, and all its paths start with "/". |
| Explorer.ExplorerState.BeginLoadRoot | frontend/src/components/Explorer.jsx:15-20 | Loading turns on, the error line is cleared and the tree is kept while "/restconf/data" is fetched. |
| Explorer.ExplorerState.FinishLoadRoot | frontend/src/components/Explorer.jsx:19-28 | Success replaces the tree. Failure keeps it and sets "Failed to load RESTCONF root: " followed by the message. Loading is off either way. |
| Explorer.ExplorerState.LoadRoot | frontend/src/components/Explorer.jsx:15-29 | After a whole load, loading is off. The error line is empty on success and names the failure otherwise, and the tree is unchanged on failure. |

## Left out

- Server setup, flag parsing, `ListenAndServe`, and the health and 404
  handlers (`backend/main.go:26-64`) are I/O plumbing. The upstream URL
  appears only as its parsed parts.
- `http.NewRequest`, `client.Do`, `io.Copy`, `WriteHeader`,
  `httputil.DumpRequestOut` and the timing logs are network and library
  calls. `filterDump` is modelled on its string argument.
- URL parsing and serialisation are not modelled. `TargetUrl` works on the
  parsed parts `Path` and `RawQuery`, and `RawPath` is not modelled.
- Proxy.BasicAuth: base64 encoding is not modelled. It is the parameter
  `encode`, so the credential is "Basic " followed by `encode(user + ":" +
  pass)`.
- HttpHeader.CanonicalKey follows the documented rule of
  `textproto.CanonicalMIMEHeaderKey`: a name with a non-token byte is left
  unchanged, and otherwise each word is capitalised. It is modelled rather
  than left abstract because `Del("TE")` removes the stored name "Te".
- Text.ToLower changes only the ASCII capitals, U+0130 and U+212A. These are
  the only runes whose lower case is ASCII, so every comparison against
  "host" and "authorization:" comes out as in Go. Other runes are left
  as they are.
- Proxy.UpstreamHeaders and its lemmas accept any map, but they match Go only
  when every incoming name is canonical, as Go's server delivers headers.
  For a non-canonical name such as "te", `CopiedInto` keeps it as written,
  whereas Go's `Add` would store "Te" and the `Del` loop would remove it.
  `Proxy.ForwardRequestHeaders` requires a canonical incoming header.
- Json.Value admits an object with two members of the same name, which no
  JavaScript object has. `Explorer.SiblingPathsDistinct` assumes distinct
  names, but `Keys` and `EntryPerKey` would count the duplicate that
  `Object.keys` would not.
- Strings are sequences of runes, not of bytes, so invalid UTF-8 in header
  values or in the dump is not modelled.
- Proxy.CopyHeaders requires `src` and `dst` to be different headers. The
  proxy never copies a header into itself, and Go leaves ranging over a map
  while adding to it unspecified.
- `fetch`, `resp.json()`, `JSON.parse`, `JSON.stringify` and
  `JSON.stringify(_, null, 2)` are not modelled: their results come in as
  parameters (`Outcome`, `parse`, `stringify`, `pretty`). The request
  headers the console sends (Accept, Content-Type) are not modelled either.
- Object member order is taken to be the order `Object.keys` reports. How
  `JSON.parse` arrives at that order (integer-like names first) is not
  modelled.
- React scheduling is not modelled: `useState` batching, when effects run,
  and the ordering of overlapping loads when `path` changes quickly.
  `loadRoot` is split at its `await` into `BeginLoadRoot` and
  `FinishLoadRoot`, so the state between the two halves is visible.
- JSX rendering and styling are not modelled, apart from the paths and the
  nesting of `renderNode`: `onSelectPath`, React keys, the "Select a node to
  edit" and status paragraphs.
- `frontend/src/components/Notifications.jsx` and `frontend/src/App.jsx`
  are not part of this model. The constant `RESTCONF_DATA` of
  `frontend/src/config.js` appears as `Editor.RestconfData`.
