# La Banque Postale statement parser, modelled in Dafny

This project models `parse_bank_statement/read.py`. That file reads the page texts of a
La Banque Postale account statement and builds a `Statement` from them. The
`Statement` holds the issue date, the column headers of the transaction table,
the account headers (each with its offset in the document) and the transactions.
Each transaction is attached to the account whose header precedes it most closely.

The page texts are an input (`seq<string>`). The document text is their
concatenation, `"".join(pages)`. Each regular expression of the parser is
modelled as a deterministic scanner function. Beside each scanner sits a ghost
predicate that states declaratively what the pattern matches at an offset, and a
lemma (or contract) that ties the two together. `re.finditer` is a recursive
function: it records a match and resumes at the match's end, or else tries the
next offset. Three lemmas state that the result is what `finditer` promises:

- every recorded match is a match (soundness);
- the matches are in order and do not overlap;
- every offset where the pattern matches lies inside a recorded match (completeness).

Amounts are whole cents (`nat`), not floats. pandas tables are sequences of
records, and a missing value (`NaN`) is an `Option`. `Statement` is a class whose
fields start out unset (`None`). `PostInit` performs the steps of
`__post_init__` in order and stops at the first one that raises. The pure
function `ParseStatement` states the outcome of all the steps at once: the first
error, or the final contents of the fields. `PostInit` and `Create` are proved
against it.

Modules: `Text` (character classes, runs, `split`/`join`), `Amounts`, `Gate`
(the statement test and the issue date), `Headers`, `Accounts`, `Transactions`,
`Matching` and `Statements`, plus `Wrappers` (`Option`, `Result`) and `Errors`.

The model follows the code as written; in particular:

- the account and transaction scans never fail;
- no debit/credit sign and no year are computed;
- a transaction before the first account header gets a missing name and id;
- a page set without any page fails on `self.pages[0]` (`NoPages`);
- transactions without any account header make the account join fail (`NoAccounts`).

## Model

| member | source | states |
|---|---|---|
| Gate.SameLineFrom | parse_bank_statement/read.py:39 | true exactly when the literal starts at or after the offset with no line break in between (`.` without DOTALL) |
| Gate.MarkerFrom | parse_bank_statement/read.py:39 | true exactly when `Relevé de vo` starts at some offset at or after the given one and ` - n°` follows later on that same line |
| Gate.IsStatement | parse_bank_statement/read.py:38-39 | the page passes the gate iff some line holds `Relevé de vo` followed later on that same line by ` - n°` |
| Gate.GateAcceptsMarkerLine | parse_bank_statement/read.py:39 | a page with the line `Relevé de votre compte - n°12` passes the gate |
| Gate.GateRejectsSplitMarker | parse_bank_statement/read.py:39 | the two halves of the marker on two different lines do not pass |
| Gate.IssueDateAt | parse_bank_statement/read.py:43-44 | the issue-date pattern tried at an offset: offset bounds only (the day digits end after the phrase, the month word is non-empty, and the year lies inside the text); the text matched is stated by `IssueDateAtSpec` |
| Gate.PhraseFrom | parse_bank_statement/read.py:44 | the same bounds for the phrase compared from one of its characters on |
| Gate.DateFields | parse_bank_statement/read.py:44 | `\d+ \w+ \d{4}` at an offset: a match has non-empty day digits from the offset up to a space, then a non-empty run of word characters up to a space, then four digits, all inside the text |
| Gate.IssueDateAtSpec | parse_bank_statement/read.py:43-44 | the issue-date pattern `Relevé édité le \d+ \w+ \d{4}` at an offset: the day/month ends are returned iff the text has that shape there, so the match is unique |
| Gate.PhraseFromIs | parse_bank_statement/read.py:44 | comparing the phrase `Relevé édité le ` one character after the other, then scanning the date fields, is matching the phrase as a whole and then the fields |
| Gate.FirstDate | parse_bank_statement/read.py:43-45 | `re.search`: the leftmost offset where the issue-date pattern matches, or none anywhere |
| Gate.EmissionDateText | parse_bank_statement/read.py:43-45 | a `date` group is captured iff the page holds the issue-date pattern somewhere; the captured text is that of the leftmost match, from just after `Relevé édité le ` to its last year digit |
| Gate.EmissionDate | parse_bank_statement/read.py:41-47 | the date is the date parser's reading of the captured group; failure `NoEmissionDate` exactly when nothing is captured, and `BadEmissionDate` exactly when a text is captured and the parser rejects it |
| Gate.GetEmissionDate | parse_bank_statement/read.py:114-125 | module-level variant: `None` exactly when the page fails the gate, otherwise the same date or failure as `EmissionDate` |
| Headers.FirstAt | parse_bank_statement/read.py:50-53 | the first occurrence of a literal at or after an offset, or none |
| Headers.LastAtSpec | parse_bank_statement/read.py:50-53 | the last occurrence of a literal before a bound, or none |
| Headers.GreedySpan | parse_bank_statement/read.py:50-53 | DOTALL `open(.*)close`: from the first opening marker to the last closing marker that begins after it; none iff no closing marker begins after an opening one |
| Headers.DateBlockStart | parse_bank_statement/read.py:51 | the block captured after `\nDate\nOpération` starts with `Date` and a line break |
| Headers.SplitStartsWithDate | parse_bank_statement/read.py:54 | a block starting with `Date` and a line break splits into a first header `Date` |
| Headers.TransactionHeaders | parse_bank_statement/read.py:49-54 | fails (`NoHeaders`, the `[0]` on an empty `findall`) iff there is no block; otherwise the first header is `Date`, no header holds a line break, and joining the headers with line breaks gives the block from the first `\nDate\nOpération` to the last `\nAncien solde` |
| Headers.GetTransactionsHeaders | parse_bank_statement/read.py:128-133 | module-level variant: the lines between `Vos opérations\n` and the last `\nAncien solde`, joining back to that block; fails iff there is none |
| Headers.ExampleSpan | parse_bank_statement/read.py:50-53 | on `\nDate\nOpération\nAncien solde` the block spans offsets 0 to 15 |
| Headers.ExampleLines | parse_bank_statement/read.py:54 | `Date\nOpération` splits into `["Date", "Opération"]` |
| Headers.TransactionHeadersExample | parse_bank_statement/read.py:49-54 | that page yields the headers `["Date", "Opération"]` |
| Text.Split | parse_bank_statement/read.py:54 | `split("\n")` gives at least one piece and no piece holds a line break |
| Text.JoinSplit | parse_bank_statement/read.py:54 | joining the pieces of a split with line breaks gives the text back |
| Text.SplitJoin | parse_bank_statement/read.py:54 | splitting line-break-free pieces joined with line breaks gives the pieces back |
| Text.SplitCount | parse_bank_statement/read.py:54 | a split has one more piece than the text has line breaks |
| Accounts.HeaderMatch | parse_bank_statement/read.py:59 | the account pattern tried at an offset: a match found there has a non-empty name after the line break and, three characters on, a non-empty id whose closing line break lies inside the text; which text it matches is stated by `HeaderMatchSpec` |
| Accounts.NameMatch | parse_bank_statement/read.py:59 | the same bounds for the scan resumed inside the name run, which extends the run while it sees name characters and then tries ` n°`, the id run and the closing line break |
| Accounts.NameMatchSome | parse_bank_statement/read.py:59 | what the name scan finds after a run of name characters is a match of the account pattern |
| Accounts.NameMatchUnique | parse_bank_statement/read.py:59 | from any offset inside the name run of a match, the name scan finds exactly that match: neither greedy class holds the character that must follow it |
| Accounts.HeaderMatchSpec | parse_bank_statement/read.py:57-62 | the account scanner at an offset returns the name and id ends iff the pattern `\n[a-zA-Z ]+ n°[\w ]+\n` matches there with them, so the match is unique |
| Accounts.HeaderMatchSome | parse_bank_statement/read.py:59 | what the account scanner finds at an offset is a match of the pattern there, with those name and id ends |
| Accounts.HeaderMatchUnique | parse_bank_statement/read.py:59 | any match of the pattern at an offset is the one the account scanner finds there |
| Accounts.AccountsFrom | parse_bank_statement/read.py:57-63 | `finditer` from an offset: no contract of its own; it records the match at the offset with its two groups and resumes past the closing line break, or tries the next offset; `AccountsStep`, `AccountsSound`, `AccountsWithin`, `AccountsOrdered` and `AccountsComplete` state what it returns |
| Accounts.AccountsStartPos | parse_bank_statement/read.py:56-70 | no contract of its own: the scan from offset 0 of the document text, so the lemmas on `AccountsFrom` describe the table |
| Accounts.AccountsStep | parse_bank_statement/read.py:57-63 | after a match at an offset, `finditer` records it, with its groups, and resumes past its closing line break |
| Accounts.AccountsSound | parse_bank_statement/read.py:56-70 | every recorded account is a match at its offset: line break, non-empty name of letters/spaces, ` n°`, non-empty id of word characters/spaces, line break; name and id are exactly the captured text |
| Accounts.AccountsWithin | parse_bank_statement/read.py:57-63 | every account recorded from an offset starts at or after it and ends inside the document |
| Accounts.AccountsAdjacent | parse_bank_statement/read.py:57-63 | each recorded account ends, past its closing line break, before the next one starts |
| Accounts.ChainOrdered | parse_bank_statement/read.py:57-63 | accounts that each end before the next starts are pairwise in order |
| Accounts.AccountsOrdered | parse_bank_statement/read.py:57-63 | recorded accounts do not overlap and come in text order, each ending (past its closing line break) before the next starts |
| Accounts.AccountStartsIncrease | parse_bank_statement/read.py:66-70 | the `start` index strictly increases |
| Accounts.AccountsComplete | parse_bank_statement/read.py:57-63 | every offset where the pattern matches lies inside a recorded account |
| Accounts.NothingAfterFirstHeader | parse_bank_statement/read.py:57-63 | in `\nA n°1\nB n°2\n`, nothing matches after the first header |
| Accounts.SecondAdjacentHeaderMatches | parse_bank_statement/read.py:59 | in that text the pattern does match, with name `B` and id `2`, at the line break ending the first header |
| Accounts.AdjacentHeadersExample | parse_bank_statement/read.py:57-70 | yet only the first of two adjacent header lines is recorded, because its match consumed the shared line break |
| Amounts.Normalized | parse_bank_statement/read.py:90 | `.replace(",", ".").replace(" ", "")`: no contract of its own; `NormalizedClean`, `NormalizedPieces` and `NormalizedToken` state what it returns |
| Amounts.DecimalCents | parse_bank_statement/read.py:90 | `float()` on the texts the scanner can produce: no contract of its own; `ParseAmount` and `ParseRender` state its value on amount tokens |
| Amounts.NormalizedClean | parse_bank_statement/read.py:90 | the normalised text holds no comma and no space and is no longer than the token |
| Amounts.NormalizedPieces | parse_bank_statement/read.py:90 | an integer part of digits and spaces, a comma and digits normalise to the integer digits, a point and those digits |
| Amounts.NormalizedToken | parse_bank_statement/read.py:90 | normalising an amount token gives its integer digits without spaces, a point, and its two fraction digits |
| Amounts.ParseAmount | parse_bank_statement/read.py:89-91 | an amount token `[\d ]+,\d{2}` is read as its integer digits (spaces dropped) times 100 plus its two fraction digits, in cents: never negative, two fraction digits |
| Amounts.SpacesIgnored | parse_bank_statement/read.py:90 | removing a space anywhere leaves the amount unchanged |
| Amounts.ParseRender | parse_bank_statement/read.py:89-91 | an amount printed as `<integer>,<two digits>` is read back as the same number of cents |
| Amounts.ParseGroupedAmount | parse_bank_statement/read.py:89-91 | `"1 234,56"`, with a thousands separator, is 1234.56 |
| Amounts.ParsePlainAmount | parse_bank_statement/read.py:89-91 | `"12,00"` is 12.00 |
| Transactions.AmountMatch | parse_bank_statement/read.py:75 | the amount pattern tried at an offset: no contract of its own; `AmountMatchSpec` states what it returns |
| Transactions.AmountMatchSpec | parse_bank_statement/read.py:75 | the amount scanner at an offset returns an end iff `[\d ]+,\d{2}` matches exactly up to it, so the amount is unique |
| Transactions.FirstTerminator | parse_bank_statement/read.py:75 | the lazy `.*?`: the first offset whose line break is followed by an amount, or none |
| Transactions.TransactionMatchAt | parse_bank_statement/read.py:75 | the transaction pattern tried at an offset: no contract of its own; `TransactionMatchSpec` and `TransactionMatchBounds` state what it returns |
| Transactions.TransactionMatchBounds | parse_bank_statement/read.py:75 | a match found at an offset has its description after the six characters of date and separator, and its amount ending inside the text |
| Transactions.TransactionMatchSome | parse_bank_statement/read.py:75 | what the transaction scanner finds at an offset is a match there |
| Transactions.TransactionMatchUnique | parse_bank_statement/read.py:75 | a match at an offset, with the shortest description, is the one the scanner finds |
| Transactions.TransactionMatchSpec | parse_bank_statement/read.py:75 | the transaction scanner at an offset returns the description and amount ends iff the pattern matches there with the shortest description |
| Transactions.TransactionsFrom | parse_bank_statement/read.py:73-79 | `finditer` from an offset: no contract of its own; it records the match at the offset with its three groups and resumes at its end, or tries the next offset; `TransactionsStep`, `TransactionsSound`, `TransactionsWithin`, `TransactionsOrdered` and `TransactionsComplete` state what it returns |
| Transactions.TransactionsStep | parse_bank_statement/read.py:73-79 | after a match at an offset, `finditer` records it, with its groups, and resumes at its end |
| Transactions.TransactionsSound | parse_bank_statement/read.py:72-87 | every recorded transaction is a match at its offset: two digits, `/`, two digits, one whitespace character, the shortest description followed by a line break and an amount token; the groups are exactly that text |
| Transactions.TransactionsWithin | parse_bank_statement/read.py:73-79 | every transaction recorded from an offset starts at or after it and ends inside the document |
| Transactions.TransactionsAdjacent | parse_bank_statement/read.py:73-79 | each recorded transaction ends before the next one starts |
| Transactions.ChainOrdered | parse_bank_statement/read.py:73-79 | matches that each end before the next starts are pairwise in order |
| Transactions.TransactionsOrdered | parse_bank_statement/read.py:73-79 | recorded transactions do not overlap and come in text order |
| Transactions.TransactionStartsIncrease | parse_bank_statement/read.py:82-87 | the `start` index strictly increases |
| Transactions.TransactionsComplete | parse_bank_statement/read.py:73-79 | every offset where the pattern matches lies inside a recorded transaction |
| Transactions.MultiLineEntryExample | parse_bank_statement/read.py:75 | in `05/01 A\nB\n12,00` the description is `A\nB`: the first line break is not followed by an amount |
| Transactions.AllTransactions | parse_bank_statement/read.py:72-91 | one row per match, in order, with its offset, date and description as captured and its amount the converted amount group, the conversion always succeeding |
| Matching.NearestIn | parse_bank_statement/read.py:95-100 | `idxmin` over the non-negative differences `t - a`: an account starting at or before `t` with the smallest difference, the first of equals; none exactly when every account starts after `t` |
| Matching.NearestIsLastPreceding | parse_bank_statement/read.py:95-100 | with increasing offsets, account `k` is chosen iff it starts at or before `t` and the next account, if any, starts after `t` |
| Matching.ScannedAccountsIncrease | parse_bank_statement/read.py:56-70 | the scanned accounts have increasing offsets, so the previous lemma applies to them |
| Matching.MatchingExample | parse_bank_statement/read.py:95-103 | with accounts at 100 and 500, a transaction at 450 goes to the first, one at 500 to the second, one at 50 to none |
| Matching.Attach | parse_bank_statement/read.py:100-103 | a joined row keeps the transaction's columns and gets the name and id of an account at or before it with no later candidate, or both missing exactly when no account starts at or before it |
| Matching.MatchedRows | parse_bank_statement/read.py:100-104 | the join keeps the number and order of the transactions and their offsets, dates, descriptions and amounts, and each row is the transaction with `Attach`'s account |
| Statements.Concat | parse_bank_statement/read.py:60 | `"".join(pages)` starts with the first page and is at least as long as every page |
| Statements.ParseStatement | parse_bank_statement/read.py:22-32 | construction fails with `NoPages` iff there is no page, with `NotAStatement` iff the first page fails the gate, then with the issue date's own error, then with `NoHeaders` iff no header block is found, then with `NoAccounts` iff there are transactions but no account header; it succeeds iff none of these happens, and then the fields are the issue date, the headers (starting with `Date`), the scanned accounts and the join of the scanned transactions with them |
| Statements.ModuleLevelDateAgrees | parse_bank_statement/read.py:114-125 | the module-level `get_emission_date` answers `None` iff construction stops at the gate, and otherwise the date a constructed statement holds |
| Statements.MatchedRowsSnoc | parse_bank_statement/read.py:100-103 | the join of one more transaction is the join so far followed by that transaction's row |
| Statements.Statement.constructor | parse_bank_statement/read.py:12-20 | the pages are set and no other field is |
| Statements.Statement.PostInit | parse_bank_statement/read.py:22-32 | the fields become the outcome of `ParseStatement`, and on failure the error is the first one raised; a gate or date failure leaves every field unset; a header failure leaves only the date set; a join failure leaves the date, the headers, the accounts and the scanned transactions set |
| Statements.Statement.MatchTransactionsWithAccounts | parse_bank_statement/read.py:94-104 | fails with `NoAccounts`, changing nothing, iff there are transactions but no account; otherwise, for each transaction, `NearestAccount` finds the nearest preceding account, the table becomes the join, and no other field changes |
| Statements.Statement.NearestAccount | parse_bank_statement/read.py:95-100 | one row of the match table reduced by `idxmin`: a pass over the accounts ends with exactly the account `NearestIn` chooses for the transaction's start |
| Statements.Statement.Create | parse_bank_statement/read.py:12-32 | `Statement(pdf=…)`: a fresh statement holding the outcome of `ParseStatement`, or its error |

## Left out

- PDF text extraction through `fitz` (`get_pages_content`, read.py:34-36, and the `fitz.open` calls at read.py:115-116 and 129-130) is foreign I/O. The page texts are an input. The two module-level functions take the first page's text, so their failure on a document without pages is not modelled.
- The `setlocale` context manager (read.py:107-111) and `strptime(…, "%d %B %Y")` under `fr_FR.UTF-8` are process-wide locale state and a foreign date parser. They are the parameter `parseDate`, which reads the captured `<day> <month> <year>` text, or rejects it. The context manager has no `try`/`finally` around its `yield`, so when `re.search(...).group` or `strptime` raises inside the `with`, the locale is never restored; the model has no locale state to leak.
- Gate.EmissionDate: does not state which texts `strptime` accepts (month names, day ranges), because that depends on the abstract `parseDate`.
- Amounts.ParseAmount: amounts are exact cents instead of binary floats; `float()` rounding is not modelled.
- `\w` is modelled exactly for characters up to U+00FF. Characters beyond U+00FF count as non-word, although Python's Unicode `\w` also accepts letters and digits there. `\d` is ASCII digits only, although Python also accepts other Unicode decimal digits.
- Matching.NearestIn: a transaction with no account at or before it, while some account exists, gets missing values. There pandas' `idxmin` reduces a row of only `NaN`, which gives `NaN` in older releases but warns or raises in newer ones; the model follows the older result.
- With transactions but no account header at all, the table built at read.py:95-98 has no column, and `idxmin(axis=1)` at read.py:100 raises because it reduces an empty row. The model fails there with `NoAccounts`. With neither transactions nor accounts, older pandas releases raise as well, while newer ones return an empty result; the model follows the newer ones and succeeds.
- Statements.Statement.MatchTransactionsWithAccounts: requires the transactions to be the scanned table, not the joined one. Calling the source method a second time would join columns that already exist.
- In place, the source method adds a temporary `account_start_in_doc` column, joins and then drops that column. The model builds the joined rows and assigns them once. The intermediate table states are not modelled.
- `get_transaction_tables` and `get_transactions` (read.py:136-146) only print page texts.
- The debit/credit classification in the TODO at read.py:149-153 does not exist in the code, so it is not modelled.
- `parse_bank_statement/aggregate.py`, `scripts/files_analysis.py` and the tests are not part of this model: they glob directories, log and print, and state no property.
- Statements.Statement.Create: the document path `pdf` and the error message that names it are not modelled, only the error kind.
