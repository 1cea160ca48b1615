# Bank ledger: a Dafny model

A model of the account ledger of the `wakulima-bank-cli` command-line bank.
Each account has three parts, all of `Account` in `src/models.rs`:

- an id;
- the balance it was opened with;
- the balance it holds now.

Both balances are `u32`. The ledger (`Bank`) keeps the accounts in a map keyed by id, and it lives in a text file of `id,opening,current` lines. There are four operations:

- open an account;
- deposit;
- withdraw;
- close an account.

Each operation checks the request, updates the map in place and rewrites the whole file.

The model has five modules:

- `Wrappers`: the `Option` type.
- `Strings` (strings.dfy): the pieces of the Rust standard library the ledger relies on.
  - `str::split` on one character (`Split`).
  - The decimal rendering of an unsigned integer by `format!` (`DecimalOf`).
  - `str::parse::<u32>` (`ParseUInt32`). It accepts one leading `+` and then one or more ASCII digits whose value is at most 4294967295.
- `AccountRecord` (account.dfy): the `Account` record and its one-line encoding.
  - `Account::new`, `to_csv` and `from_csv` as functions.
  - Lemmas for the round trip and for every way a line can fail to decode.
- `LedgerFile` (ledger_file.dfy): the file's text and the map.
  - `Load` is the parsing loop of `Bank::init`, stated as a function. `LoadAccounts` is the loop itself, proved equal to `Load`.
  - `Render(order, m)` is the text `Bank::perist` writes when the map yields its keys in the order `order`.
  - Lemmas: later lines win, lines that do not decode are skipped, and loading what was persisted gives the map back.
- `Ledger` (ledger.dfy): `Bank` as a class with a mutable `accounts` map.
  - `Init` covers three start-up cases: no data file, a readable file, an unreadable one.
  - `Persist` is the rendering loop.
  - `OpenAccount`, `Deposit`, `Withdraw` and `CloseAccount` each return an `Outcome`. It is either `Completed`, with the text handed to the file write, or `Rejected`, with the reason.
  - Every operation keeps the invariant that each account is filed under its own id.
  - Every rejection leaves the map unchanged.
  - Balances stay in the `u32` range by their type.

The file's text is a parameter (`DataFile`), and the written text is a result. The model does no file-system access.

`HashMap` iteration order is not specified. `Persist` therefore picks the next key nondeterministically, and it returns the order it used as a ghost value. Properties of persisted text hold for every order: `IsRenderingOf(text, m)` says that `text` is the rendering of `m` in some iteration order.

## Model

| member | source | states |
|---|---|---|
| AccountRecord.NewAccount | src/service.rs:8-14 | a new account has the given id and holds its opening balance as both its opening and its current balance |
| AccountRecord.ToCsv | src/service.rs:16-21 | the encoded line holds a newline exactly when the id does (balances are digits only) |
| AccountRecord.FromCsv | src/service.rs:23-34 | a decoded account's id never holds a comma, because it is the first comma-separated field |
| AccountRecord.CsvFields | src/service.rs:16-27 | the comma-separated fields of an encoded line are the pieces of the id followed by the two rendered balances |
| AccountRecord.CsvRoundTrip | src/service.rs:16-34 | decoding the encoding of an account whose id has no comma gives the same account back |
| AccountRecord.ToCsvInjective | src/service.rs:16-21 | any two accounts with the same encoded line are the same account, whatever their ids hold |
| AccountRecord.FromCsvNeedsThreeFields | src/service.rs:24-27 | a line with fewer than two commas (fewer than three fields, the empty line included) decodes to nothing |
| AccountRecord.FromCsvFields | src/service.rs:23-34 | a line of three comma-free fields decodes to the account exactly when both balance fields parse as `u32`, and to nothing otherwise |
| AccountRecord.FromCsvIgnoresExtraFields | src/service.rs:24-27 | fields after the third do not change what a line decodes to |
| AccountRecord.CommaIdNotRestored | src/service.rs:16-34 | an account whose id holds a comma never decodes back to itself from its own line |
| AccountRecord.CommaIdIsDropped | src/service.rs:16-34 | an account with id `x,y`, where `y` is not a `u32`, encodes to a line that decodes to nothing |
| AccountRecord.CommaIdReadsAsAnother | src/service.rs:16-34 | an account with id `x,o,c` encodes to a line that decodes as a different account: id `x`, opening balance `o`, current balance `c` |
| Strings.Split | src/service.rs:57 | splitting always yields at least one piece, and no piece holds the separator |
| Strings.JoinSplit | src/service.rs:57 | putting the separator back between the pieces gives the original text |
| Strings.SplitCount | src/service.rs:24-27 | there is exactly one more piece than there are separators |
| Strings.SplitAt | src/service.rs:24 | splitting at one separator splits the two sides independently |
| Strings.SplitWithoutSeparator | src/service.rs:24 | a text without the separator is a single piece |
| Strings.SplitTerminated | src/service.rs:68-73 | splitting lines that are each ended by the separator gives those lines back, followed by the pieces of whatever comes after |
| Strings.DecimalOf | src/service.rs:17-20 | the rendering of a balance is one or more decimal digits |
| Strings.DecimalOfValue | src/service.rs:17-20 | the rendered digits denote the number, and only zero starts with `0` |
| Strings.ParseUInt32 | src/service.rs:26-27 | a successful `parse::<u32>` saw a non-empty text other than a lone `+`, made of digits apart from one optional leading `+`; `ParseDecimal` and `ParseRejectsNonDigit` give what it accepts and what it rejects |
| Strings.ParseDecimal | src/service.rs:26-27 | parsing a rendered number gives it back when it fits in `u32`, and fails otherwise |
| Strings.ParseRejectsNonDigit | src/service.rs:26-27 | a character that is neither a digit nor the single leading `+` makes `parse::<u32>` fail |
| LedgerFile.DecodeLines | src/service.rs:57-58 | every line of the file is decoded, one result per line |
| LedgerFile.Collect | src/service.rs:55-63 | the loaded map files every account under its own id |
| LedgerFile.Load | src/service.rs:55-63 | the map loaded from a file's text files every account under its own id; `CollectHas`, `CollectLastWins` and `SkipUndecodable` say which accounts it holds |
| LedgerFile.CollectHas | src/service.rs:55-63 | the loaded map holds an id exactly when some line decoded to an account with that id |
| LedgerFile.CollectLastWins | src/service.rs:62 | the account under an id is that of the last line carrying the id: later lines overwrite earlier ones |
| LedgerFile.SkipUndecodable | src/service.rs:58-60 | a line that does not decode can stand anywhere without changing the loaded map |
| LedgerFile.CollectFiled | src/service.rs:55-63 | loading the records of a map's keys, in any order and with repeats, gives the map cut down to those keys |
| LedgerFile.CollectEnumerated | src/service.rs:55-63 | loading the records of every key once, then a line that does not decode, gives back the whole map |
| LedgerFile.CsvLines | src/service.rs:70-72 | line `i` of the output is the encoding of the account under the `i`-th key |
| LedgerFile.Render | src/service.rs:68-73 | the persisted text is empty exactly when the map yields no key, and otherwise ends with a newline; `LoadRender` is its partner |
| LedgerFile.SplitRender | src/service.rs:68-73 | the persisted text splits at newlines into the record lines, then one empty trailing piece |
| LedgerFile.DecodeCsvLines | src/service.rs:57-58 | record lines of storable accounts decode to those accounts, and the empty piece after them decodes to nothing |
| LedgerFile.DecodeRendered | src/service.rs:57-58 | every line of persisted text decodes to the account it was written from, except the empty trailing piece, which decodes to nothing |
| LedgerFile.LoadRender | src/service.rs:68-73 | loading the text persisted in any iteration order gives back the map, provided ids have no comma and no newline |
| LedgerFile.PersistedTextLoadsBack | src/service.rs:68-73 | any text that is a rendering of the map loads back as the map (same proviso) |
| LedgerFile.PersistedLines | src/service.rs:68-73 | persisted text is one encoded line per account, each ended by a newline, in an iteration order of the map, for any map whose ids hold no newline (commas allowed) |
| LedgerFile.LoadAccounts | src/service.rs:55-63 | the parsing loop computes exactly `Load` of the file's text |
| Ledger.Credited | src/service.rs:153 | a credited account keeps its id and opening balance, and its current balance agrees with the unchecked `u32` addition wherever the sum fits |
| Ledger.Debited | src/service.rs:187 | a debited account keeps its id and opening balance; its current balance plus the amount is the old balance, so it never grows, and taking all of it leaves 0 |
| Ledger.Bank.constructor | src/models.rs:20-22 | a ledger holds the given map, each account filed under its own id |
| Ledger.Bank.Init | src/service.rs:38-66 | there is no ledger exactly when the file cannot be read; a missing file gives an empty map; a readable file gives `Load` of its text |
| Ledger.Bank.Persist | src/service.rs:68-73 | the written text is the rendering of the map in the iteration order used, and that order lists each key once |
| Ledger.Bank.OpenAccount | src/service.rs:112-129 | a taken id, then an opening balance that is not a `u32`, is refused with the map unchanged; otherwise exactly one account is added, holding the opening balance as both balances, and the saved text renders the new map |
| Ledger.Bank.Deposit | src/service.rs:139-155 | an unknown id, then an invalid amount, then a sum past 4294967295, is refused with the map unchanged; otherwise only that account's current balance changes, to old plus amount, and the saved text renders the new map |
| Ledger.Bank.Withdraw | src/service.rs:165-189 | an unknown id, then an invalid amount, then an amount above the current balance, is refused with the map unchanged; otherwise only that account's current balance changes, to old minus amount (so withdrawing all of it leaves 0), and the saved text renders the new map |
| Ledger.Bank.CloseAccount | src/service.rs:199-204 | an unknown id is refused with the map unchanged; otherwise exactly that key is removed, whatever its balance, and the saved text renders the new map |
| Ledger.DepositAsWritten | src/service.rs:153 | the unchecked `u32` addition gives the sum when it fits, and the sum minus 2^32 when it does not |
| Ledger.DepositAsWrittenLosesFunds | src/service.rs:153 | as written, every deposit past the `u32` range leaves less than the account had |
| Ledger.DepositAsWrittenWrapsToZero | src/service.rs:153 | as written, depositing 1 onto 4294967295 leaves 0 |

## Left out

- Console input: `Bank::prompt` reads a line from standard input and trims it (src/service.rs:93-104). The operations take the id and the amount text after trimming. An input error, on which the source returns without doing anything, is not modelled.
- The menu loop in src/main.rs and the `MainMenuUserOptions` enum in src/models.rs are user interface and are not modelled. src/main.rs is not part of this model.
- File-system access: `PathBuf::exists`, `fs::read_to_string` and `fs::write`.
  - The data file enters `Bank::Init` as a `DataFile` value (missing, unreadable, or present with its text).
  - The written text is the `saved` text of a completed outcome.
  - A failed write, which the source only reports, is not modelled.
- Console output: `list_accounts`, `close` and every `println!`/`eprintln!` message. A rejection's reason stands in for its error message.
- The line order of persisted text follows `HashMap` iteration order, which is not specified. Properties are stated for every order; which order the map uses is not modelled.
- Ledger.Bank.Persist: its contract does not itself say that the text loads back. That is `LedgerFile.LoadRender`, which requires ids without a comma or newline.
  - In the source no id holds a newline: ids come from one line of input, trimmed (src/service.rs:93-104). The operations here take the id as a parameter and do not restate that.
  - `Bank::open_account` accepts an id with a comma, and `perist` writes it unescaped. On reload such a record is never the account that was written (`AccountRecord.CommaIdNotRestored`).
  - It is either dropped (`AccountRecord.CommaIdIsDropped`) or decoded as another account (`AccountRecord.CommaIdReadsAsAnother`). That other account can replace a real account with the same id when its line comes later (`LedgerFile.CollectLastWins`).
- Ledger.Bank.Deposit: a deposit that would take the balance past 4294967295 is refused with `BalanceOverflow` (see Findings). The source as written panics in a debug build and wraps in a release build.

## Findings

| source | as written | input that shows it | evidently intended | confidence | as-written member | corrected member |
|---|---|---|---|---|---|---|
| src/service.rs:153 | `account.current_balance += amount` on `u32`, unchecked: a debug build panics; a release build wraps modulo 2^32 and persists the wrapped balance | current balance 4294967295, deposit 1: the balance becomes 0 | the deposit is refused and the balance is kept, as a withdrawal beyond the balance is refused | not executed | Ledger.DepositAsWrittenLosesFunds | Ledger.Bank.Deposit |
