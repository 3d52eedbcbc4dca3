# Password-gated gallery: request decisions in Dafny

This project models the request-decision core of `cam_trap_web`, a small
Rocket web server that shows the most recent files of a media directory to
whoever holds the configured password. Everything the server decides is
modelled as pure functions:

- the `User` request guard (`User::from_request`), which reads the private
  cookie `password` and forwards, succeeds, or fails with 403;
- Rocket's dispatch among the routes mounted at `/`. Matching routes are tried
  in rank order. A guard that forwards hands the request to the next route. A
  guard that fails ends the request with its status. When no route is left, the
  answer is 404;
- the gallery selection in `index`: sort the entry names in descending order,
  keep the first `min(display_count, len)`;
- the cookie transitions of `login_post` (always stores the submitted value)
  and `logout` (removes the cookie);
- the path `remove` deletes: `media_dir + "/" + path`, with `path` not checked.

Modules, leaf first:

| module | file | contents |
|---|---|---|
| `Common`, `Config` | `common.dfy` | `Option`, `Min`; the `Settings` record |
| `LexOrder` | `lex_order.dfy` | the order of `String::cmp` and its total-order laws |
| `Gallery` | `gallery.dfy` | descending sort, uniqueness of sorted arrangements, `Select` |
| `Http`, `Auth` | `auth.dfy` | statuses and responses; the guard's `Verdict` and `FromRequest` |
| `Routes` | `routes.dfy` | requests, routes, ranked dispatch with forwarding, effects |
| `DispatchProperties` | `dispatch_properties.dfy` | an explicit verdict-first policy `Decide`, proved equal to the dispatch, and the end-to-end properties |
| `Session` | `session.dfy` | runs of requests carrying the cookie; the two-state cookie machine |

Abstractions:

- The cookie jar is `Option<string>`. It holds the decrypted value of the
  private cookie `password`. Rocket's `get_private` returns nothing both when
  the cookie is absent and when it does not decrypt or authenticate, so a
  tampered cookie is `None` here too.
- The file system is an input per request, `Io`. `listing` holds the names
  `read_dir` yields, or `None` when the directory cannot be read. `deletable`
  holds the paths `remove_file` would delete. The `expect`/`unwrap` calls
  panic when these fail. The model answers such a request with
  `Error(InternalServerError)`, the 500 response the server gives for a
  panicking handler.
- Deletion is reported as the effect `DeleteFile(target)`. It is not applied
  to a directory state.
- Strings are `seq<char>`. Rust compares the UTF-8 bytes of two strings, and
  UTF-8 keeps code-point order. So comparing characters one by one
  (`LexOrder.LexLess`) gives the same order.
- `display_count` is a `usize`, modelled as `nat`. No arithmetic on it can
  overflow: it is only compared with a length.

Behaviours of the code worth knowing:

- A cookie that fails decryption is treated as absent (`get_private` returns
  nothing), so `GET /` redirects to `/login` (src/main.rs:35-38).
- `login_post` stores any submitted value without comparing it with the
  password; a wrong value leads to 403 on the next `GET /` (src/main.rs:79-83).
- `remove` joins `path` to the media directory without checking it
  (`RemoveDoesNotValidate`). When the file cannot be deleted,
  `remove_file(...).unwrap()` panics and the answer is 500 (src/main.rs:69-70).
- Without a cookie, `/remove` ends in 404: the guard forwards and no other
  route matches (src/main.rs:38, src/main.rs:101).

## Model

| member | source | states |
|---|---|---|
| `Auth.FromRequest` | src/main.rs:34-45 | no cookie gives Forward, the configured password gives Success, any other value gives Failure(Forbidden); each iff |
| `Http.Status.Code` | src/main.rs:42 | the guard's failure status `Forbidden` is the code 403, and 404 is `NotFound`, each iff |
| `Auth.VerdictDependsOnlyOnMatch` | src/main.rs:41-42 | two stored cookies get the same verdict iff both or neither equal the password |
| `LexOrder.LexLeqTotalOrder` | src/main.rs:55 | the string order used by the sort is reflexive, antisymmetric, transitive and total |
| `Common.Min` | src/main.rs:57 | the page length bound is at most both arguments and equals one of them |
| `Gallery.Insert` | src/main.rs:55 | inserting into a descending sequence keeps it descending and adds exactly that element |
| `Gallery.SortDescending` | src/main.rs:55 | the sort yields a non-increasing permutation of the listing |
| `Gallery.SortedUnique` | src/main.rs:55 | two non-increasing permutations of the same names are equal, so the sort result is determined |
| `Gallery.Select` | src/main.rs:50-58 | the page has length `min(display_count, len)`, is non-increasing, and repeats no name more often than the listing |
| `Gallery.SelectEmpty` | src/main.rs:57-58 | the page is empty iff `display_count` is 0 or the directory is empty |
| `Gallery.SelectFromListing` | src/main.rs:50-58 | every name on the page is a directory entry |
| `Gallery.SelectIsPrefixOfDescending` | src/main.rs:55-58 | the page is the prefix of any descending arrangement of the listing |
| `Gallery.SelectIsTop` | src/main.rs:55-58 | each entry left off the page sorts at or below each entry shown |
| `Gallery.SelectAll` | src/main.rs:55-58 | when `display_count` covers the listing, the page is a permutation of it |
| `Gallery.SelectExample` | src/main.rs:55-58 | entries b.jpg, a.jpg, c.jpg with room for two give c.jpg, b.jpg |
| `Routes.RemovePath` | src/main.rs:69 | the target is the media directory, one `/`, then the path unchanged |
| `Routes.IndexBody` | src/main.rs:50-59 | the body of `index` changes nothing; it renders iff the listing is readable, else 500, and a rendered page has `min(display_count, len)` names, descending, from the listing |
| `Routes.RemoveBody` | src/main.rs:69-71 | the body of `remove` deletes iff `media_dir + "/" + path` is deletable, then only that target and redirects to `/`; otherwise 500 and no change |
| `Routes.Handle` | src/main.rs:48-89 | `no_auth_index`, `login_get`, `login_post` and `logout` never forward or fail; `index` and `remove` forward iff no cookie, fail with 403 iff a wrong cookie, run iff the password cookie |
| `Routes.Dispatch` | src/main.rs:101 | the answer is 404 iff no route matches or `/remove` has no cookie, and 403 iff `/` or `/remove` carries a wrong cookie |
| `Routes.ApplyCookie` | src/main.rs:81-87 | `add_private` makes the jar hold the submitted value, `remove_private` empties it, and every other reply leaves it unchanged |
| `Routes.TryRoutes` | src/main.rs:62-65 | an error answer from the route chain never changes the cookie or deletes a file |
| `DispatchProperties.DispatchIsVerdictFirst` | src/main.rs:48-101 | the ranked dispatch with forwarding equals computing the verdict first and branching on it, for every request |
| `DispatchProperties.NoCookie` | src/main.rs:35-65 | with no cookie the verdict is Forward for any password, `GET /` redirects to `/login`, and `/remove` gets 404 |
| `DispatchProperties.MatchingCookie` | src/main.rs:41-59 | with the password in the cookie and a readable directory, `GET /` renders the selected page |
| `DispatchProperties.WrongCookie` | src/main.rs:42-72 | any other value gives 403 on `/` and `/remove`, without the rank-2 redirect and without deletion |
| `DispatchProperties.IndexTrichotomy` | src/main.rs:34-65 | `GET /` redirects iff no cookie, is 403 iff a wrong cookie, renders iff the right cookie and a readable directory |
| `DispatchProperties.RenderedPage` | src/main.rs:48-59 | a rendered gallery has `min(display_count, entries)` names, descending, all from the listing |
| `DispatchProperties.LoginThenIndex` | src/main.rs:79-83 | `login_post` stores the submitted value and redirects to `/`; the next `GET /` renders iff the value is the password and the directory is readable; any other value gets 403 |
| `DispatchProperties.LogoutThenIndex` | src/main.rs:85-89 | `logout` removes the cookie and redirects to `/login`; the next `GET /` redirects to `/login` whatever came before |
| `DispatchProperties.LoginFormAlways` | src/main.rs:74-77 | `GET /login` renders the login form in every cookie state |
| `DispatchProperties.RemoveAuthenticated` | src/main.rs:67-72 | when authenticated, `remove` deletes `media_dir + "/" + path` and redirects to `/`, or answers 500 when the deletion fails |
| `DispatchProperties.RemoveDoesNotValidate` | src/main.rs:69-70 | the path `../settings.json` is deleted like any other name |
| `DispatchProperties.DeletionNeedsPassword` | src/main.rs:67-72 | a file is deleted iff the request is `/remove` with the password cookie and a deletable target, and only that target |
| `DispatchProperties.CookieChanges` | src/main.rs:79-89 | only `login_post` sets the cookie, to the submitted value, and only `logout` removes it |
| `Session.Run` | src/main.rs:79-89 | a run answers each request exactly once |
| `Session.RunResponses` | src/main.rs:79-89 | inside a run, response i is the server's reply to call i under the cookie calls 0..i-1 left |
| `Session.RunCookie` | src/main.rs:79-89 | the cookie after a run is the value of the last login, unless a logout followed it, and the starting cookie when the run has neither |
| `Session.IndexAfterRun` | src/main.rs:34-45 | after any run, `GET /` is decided only by the last login or logout, or by the starting cookie when there is neither, in the three ways above |
| `Session.LogoutEndsSession` | src/main.rs:85-89 | a run ending in `logout` leaves no cookie, and `GET /` then redirects to `/login` |

## Left out

- Encryption and signing of private cookies: the jar is a tamper-proof `Option<string>`.
- Cookie lifetime and attributes: the browser is assumed to send back the cookie the last reply set.
- Template rendering and JSON context building: a response names the template and its image list.
- The static file servers mounted at `/media` and `/static`, which are framework components. Requests under `/media` and `/static` are not represented; `Unmatched` stands only for requests no route of the server matches.
- Loading `settings.json` with serde at start-up: this is I/O and deserialisation. `Settings` is a parameter.
- The `&State<Settings>` guard: it always succeeds because the settings are managed.
- Non-UTF-8 file names (`to_str().unwrap()`): this is OS string conversion. Names are taken as strings.
- `/remove` without a `path` query parameter, and login forms without a `password` field. These are handled by the framework's parameter parsing, which is not modelled.
- Rocket's asynchronous guard machinery and concurrent requests. Each request is handled by a synchronous pure function.
- The state of the directory after a deletion. Each request is given its own `Io`.
