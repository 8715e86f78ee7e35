# go-expiration-check, modelled in Dafny

`go-expiration-check` is a command-line tool. Its `check` command collects
domain names, finds the RDAP service responsible for each name's top-level
domain (TLD) in the IANA bootstrap document, queries RDAP, and reports the
registrar and expiry date of every domain it could look up.

This project models the tool's decision rules as pure Dafny functions. The
network, the RDAP client, the clock and the terminal become parameters:

| module | file | what it models |
|---|---|---|
| `Results` | results.dfy | `Option` and `Result`, standing for Go's `(value, error)` returns |
| `GoStrings` | strings.dfy | `strings.Split` on one character, its inverse `Join`, and `strings.TrimSpace` with Go's `unicode.IsSpace` |
| `Tld` | tld.dfy | `ExtractTLD` |
| `ServiceDirectory` | directory.dfy | the loop in `GetRdapServices` that flattens the `services` array of the bootstrap document (section 4 of RFC 9224) into a TLD→URL map, including the index-out-of-range panic a malformed entry causes |
| `Rdap` | rdap.dfy | `contains`, the registrar and expiration selection of `GetRdap`, and `GetRdap` itself, given the RDAP client's answer |
| `Lookup` | lookup.dfy | `GetDomainInfo`: a domain goes to RDAP only if its TLD is a key of the service map |
| `CheckCommand` | check.dfy | input collection (flag, environment variable, standard input), the result loop, and the whole `check` command |

Five behaviours of the code are easy to misread:

- The service map keeps the URL of the **last** entry that lists a TLD (`values[tld] = value[1][0]` overwrites). It does not keep the first match. `ServiceDirectory.LaterEntryWins` shows a concrete case.
- The `--domain` list and the environment variable's pieces are **both** used: the pieces are appended after the flag list. The env source is not a fallback used only when no flag is given. Standard input is the only fallback.
- The URL in the service map is never used (`_ = rdapService`). The RDAP client finds its own server, so only the map's key set decides anything (`Lookup.OnlyServiceKeysMatter`).
- `value[1][0]` is evaluated only for an entry whose TLD list is non-empty. An entry with an empty TLD list and no URL list is therefore accepted, and `ServiceDirectory.Indexable` reflects this.
- The service directory is flattened inside the first lookup. So a malformed document crashes the whole command (`Outcome.Crashed`). It is not treated as a per-domain error.

## Model

| member | source | states |
|---|---|---|
| GoStrings.Split | main.go:78 | the pieces contain no separator, there is one more piece than there are separators, and joining them with the separator gives back the input |
| GoStrings.SplitJoin | main.go:92 | splitting the join of separator-free pieces returns those pieces, so Split and Join are mutually inverse |
| GoStrings.SplitFree | main.go:227 | a string without the separator splits into itself alone |
| GoStrings.SplitAfterPiece | main.go:227 | a separator-free prefix followed by the separator contributes exactly one piece ahead of the rest's pieces |
| GoStrings.JoinEndsWithLast | main.go:227-229 | the join of the pieces ends with the last piece, and a separator precedes it when there is more than one piece |
| GoStrings.LastPieceIsSuffix | main.go:227-229 | the last piece of a split is a suffix of the input, and a separator precedes it unless it is the whole input |
| GoStrings.TrimLeft | main.go:90 | drops exactly the leading run of whitespace: the result is a suffix starting with a non-space, and everything removed is whitespace |
| GoStrings.TrimRight | main.go:90 | drops exactly the trailing run of whitespace: the result is a prefix ending with a non-space, and everything removed is whitespace |
| GoStrings.TrimSpace | main.go:90 | the result sits inside the input with only whitespace around it and does not start or end with whitespace; it is empty exactly when the input is all whitespace |
| GoStrings.AllSpaceTrimsToEmpty | main.go:90-91 | trimming leaves nothing exactly when every character of the line is whitespace |
| Tld.ExtractTLD | main.go:225-230 | the TLD contains no dot and is a suffix of the name; a dot precedes it unless it is the whole name; a name without a dot (including "") is its own TLD |
| Tld.MaximalFreeSuffixUnique | main.go:229 | a string has only one dot-free suffix that is preceded by a dot or is the whole string, so the TLD is determined uniquely |
| Tld.TldAfterLastDot | main.go:225-230 | for any prefix and any dot-free label, the TLD of prefix + "." + label is that label |
| Tld.TldIdempotent | main.go:225-230 | the TLD of a TLD is itself |
| Tld.TldOfDottedName | main.go:225-230 | "example.com" has TLD "com" |
| Tld.TldOfDotlessName | main.go:225-230 | "localhost" and "" are their own TLDs |
| Tld.TldOfTrailingDot | main.go:225-230 | every name ending in a dot has the empty TLD |
| ServiceDirectory.AssignAll | main.go:241-243 | every TLD of the list is bound to the URL, and every other key keeps its value |
| ServiceDirectory.Flatten | main.go:240-244 | it succeeds exactly when every entry can be indexed, and otherwise reports the first entry that cannot; the keys are exactly the union of all TLD lists; each TLD maps to the first URL of the last entry that lists it |
| ServiceDirectory.FlattenStep | main.go:240-244 | processing one more entry keeps the key set equal to the union of the TLD lists so far, and keeps each TLD mapped to the first URL of the last entry listing it |
| ServiceDirectory.LaterEntryWins | main.go:240-244 | when two entries list "com", the URL of the second one is kept |
| Rdap.Contains | main.go:250-257 | true exactly when the string is an element of the slice |
| Rdap.RegistrarName | main.go:192-200 | the vCard name of the first entity whose roles include "registrar", or "" when none does |
| Rdap.ExpiryDate | main.go:202-212 | with no "expiration" event the zero time; otherwise the parsed date of the first such event, and a parse error for that date if it does not parse |
| Rdap.LaterEventsIgnored | main.go:203-211 | events appended after an "expiration" event do not change the expiry or its error |
| Rdap.GetRdap | main.go:185-223 | a failed query becomes that query error; otherwise the result carries the domain name, the selected registrar and expiry, and is not marked failed; when the query succeeds but the first expiration date does not parse, it fails with exactly that parse error |
| Lookup.GetDomainInfo | main.go:141-154 | returns "no RDAP service" for the domain exactly when its TLD is not a key of the map; otherwise it is the RDAP step; success keeps the domain name |
| Lookup.OnlyServiceKeysMatter | main.go:144-148 | two service maps with the same keys give the same lookup result, so the URL values are never consulted |
| CheckCommand.EnvPieces | main.go:74-80 | an absent or empty variable contributes nothing; otherwise the pieces contain no comma and join back to the variable's value |
| CheckCommand.CollectDomains | main.go:67-98 | the flag list followed by the env pieces when these are non-empty; otherwise standard input's trimmed line split on commas; a read error is reported; "no domain names provided" exactly when all sources are empty or blank; a success is never empty |
| CheckCommand.StdinOnlyAsFallback | main.go:82-94 | once the flag or the variable supplied a domain, the content of standard input (or its read error) changes nothing |
| CheckCommand.EnvListExample | main.go:76-79 | the variable "a.com,b.org" yields exactly ["a.com", "b.org"] |
| CheckCommand.ResultLoop | main.go:102-112 | there are no more results than domains; every result is the successful lookup of some input domain, and every successful lookup is among the results |
| CheckCommand.ResultLoopAppend | main.go:104-112 | the results for a + b are the results for a followed by those for b, so survivors keep their input order |
| CheckCommand.AllSucceed | main.go:104-112 | when every lookup succeeds, there is one result per domain, in input order |
| CheckCommand.FailedDomainsDropped | main.go:106-110 | no result carries the name of a domain whose lookup failed |
| CheckCommand.Check | main.go:66-112 | the command fails on input exactly when collection fails; it crashes exactly when some directory entry is malformed; otherwise every result is an input domain whose TLD is listed and whose RDAP query succeeded, each result carries that domain's first registrar name, the parsed first expiration date and no failure mark, and there are at most as many results as domains; conversely every input domain whose TLD is listed, whose query succeeds and whose expiration date parses is reported |
| CheckCommand.ResultLoopOfPair | main.go:104-112 | of two domains where only the first lookup succeeds, only the first one's info is kept |
| CheckCommand.ComOnlyDirectory | main.go:240-244 | a directory with the single entry (["com"], [url]) flattens to a map that has "com" and lacks "zz" |
| CheckCommand.RegistrarAndExpiryPicked | main.go:185-223 | an answer with one registrar entity and one parsable expiration event yields that registrar's name and the parsed instant |
| CheckCommand.ComDomainIsLookedUp | main.go:141-148 | "example.com" against a map that has "com" goes through to the RDAP step and yields its info |
| CheckCommand.ZzDomainHasNoService | main.go:149-152 | "example.zz" against a map without "zz" fails with "no RDAP service" for that domain |
| CheckCommand.UnlistedTldIsSkipped | main.go:104-112 | a run over "example.com" and "example.zz" against a directory that lists only "com" completes with exactly the info for "example.com" |
| CheckCommand.LookupsReported | main.go:104-112 | every domain whose TLD is a service key, whose query succeeds and whose expiration date parses has a result with its name |
| CheckCommand.CheckKeepsInputOrder | main.go:66-112 | checking the flag list a + b against a well-formed directory reports the results for a followed by those for b |
| CheckCommand.NothingToCheck | main.go:96-98 | with no flag, no usable variable and a blank line on standard input the command fails with "no domain names provided" |

## Left out

- Fetching the IANA document with `http.Get` and decoding its JSON (main.go:233-238) are network I/O. The decoded `services` array is an input. If the fetch fails, `response` is nil and `response.Body.Close` would panic; if the decode fails, the errors are ignored. Neither case is modelled.
- The source fetches the document again for every domain. The model uses one document for the whole run, so it does not model a document that changes between fetches.
- `rdap.Client.QueryDomain` is a foreign library call (main.go:186-190). Its answer for each name is the parameter `query`, which is deterministic per name.
- `VCard.Name()` (main.go:196) is a foreign library call. Each entity carries the name it would return. A nil vCard is not modelled.
- RFC 3339 parsing (main.go:206) is the parameter `parse`, a partial function to an abstract instant type `T`. Go's zero `time.Time` is the parameter `zero`.
- Rdap.GetRdap: does not compute `DaysToExpire` or the RFC 3339 text of `ExpiryDate` (main.go:214-219), because these need the clock (`time.Until`) and floating point. The result carries the instant itself.
- The JSON and text output (main.go:114-128) is formatting with floats, so it is not modelled, and neither is the marshalling error.
- The CLI framework, logging, the prompt and reading a line from standard input (main.go:30-66, 84-89, 135-137) are I/O plumbing. The `--domain` values arrive already parsed into a list. The line that was read, or the read error, arrives as a `Result`; a line ended by end-of-file instead of a newline counts as a read error in the source.
- The commented-out WHOIS fallback (main.go:156-183) is dead code.
- Strings are sequences of Unicode characters, not UTF-8 bytes. This is exact for splitting on "." and ",". For TrimSpace it means invalid UTF-8 is not modelled.
