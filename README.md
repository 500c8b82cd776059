# Budget Tracker core in Dafny

This project models the core of the Budget Tracker desktop application. The
application is a personal finance tool. It keeps categories, wallets,
expenses, goals and a single user profile in an SQLite database, and it
exports and imports all of them as CSV, JSON or a database copy. The
project also proves properties of that model.

The model covers these parts of the application:

- **Store** (`store.dfy`). The five tables are sequences of rows in
  ascending id order. An insert takes the id after the largest one, as an
  SQLite `INTEGER PRIMARY KEY` does. `Store.Database` is a class whose
  fields are the tables. Every store-changing method ensures
  `db.Snap() == Spec(old(db.Snap()))` for a specification function `Spec`.
- **CRUD** (`crud_*.dfy`). This covers:
  - insert, "None keeps current" edit and remove for categories, wallets,
    expenses and goals;
  - the queries by name, currency, category and date range;
  - the five orderings of expenses and goals;
  - the seeding of default categories;
  - the profile upsert, the profile read, the last-login stamp and the
    PBKDF2 password format.
- **Balance operations** (`analysis.dfy`). This covers:
  - recording and redoing an expense against its wallet;
  - transferring between wallets;
  - completing a goal;
  - the toggle filter, the month list, the wallet orderings and the
    per-currency totals.
- **Database bootstrap** (`db.dfy`). This covers the core-table probe, the
  one-time schema run and the guarded profile column migration with its
  password backfill.
- **Export** (`export.dfy`). This covers:
  - the sectioned single-file CSV and the per-table CSV zip;
  - the single JSON payload and the per-table JSON zip;
  - the guards of the database copy.
- **Import** (`import_schema.dfy`, `csv_import.dfy`, `import_detect.dfy`,
  `import_apply.dfy`). This covers:
  - the value coercers and the per-table schema projection;
  - the CSV, JSON and database readers;
  - file-kind detection;
  - `apply_import`, which merges the normalized rows into the store and
    re-maps foreign keys.

  Round-trip lemmas connect each exporter to its reader.
- **Settings page** (`settings.dfy`). This covers:
  - the skipped-months text parser;
  - the photo vault copy with its free-name loop;
  - the User and Security page saves;
  - the section navigation.
- **Themes** (`theme.dfy`). This covers:
  - the twelve registered themes and the maps by id and by key;
  - the option list;
  - the lookups and the runtime theme selection;
  - the change callbacks.
- **Insights page** (`insights.dfy`). This covers:
  - the timeframe-to-span maps;
  - the tile state key and the tile refresh skip rule;
  - the batched refresh queue driven by a timer.
- **Supporting models**:
  - `values.dfy` holds Python values and float text;
  - `text.dfy` holds the string helpers;
  - `jsontext.dfy` holds `json.dumps` and `json.loads` for the value shapes
    used here;
  - `sorting.dfy` holds a stable insertion sort standing for `sorted` and
    `ORDER BY`;
  - `wrappers.dfy` holds `Option` and `Result`.

Money is an exact `real`. A Python float in the import and export values is
an exact canonical decimal. The clock, the random salt, the hash function,
file contents and SQLite's answers are all parameters.

The model follows the code where the code and its documentation disagree.
Two of these are shown by the Dafny itself:

- `ChartTile.refresh` keeps the previous key when the new key is `""` as
  well as when it is None (`state_key or self._last_key`).
  `Insights.TileRefresh` models that.
- The `upsert_profile` docstring says None leaves a column unchanged, but
  the `main_wallet_id` and `theme` guards always write.
  `Profiles.UpsertClearsWalletAndTheme` proves that those two columns are
  overwritten anyway.

## Model

| member | source | states |
|---|---|---|
| Store.NextId | backend/crud/wallets.py:7-17 | the id an insert assigns is larger than every id in the table |
| Store.Insert | backend/crud/wallets.py:7-17 | an insert appends one row with a fresh id and keeps ids ascending |
| Store.Find | backend/crud/wallets.py:49-53 | `WHERE id = ?` finds a row exactly when some row carries that id, and returns that row's data |
| Store.Update | backend/crud/wallets.py:19-41 | `UPDATE ... WHERE id = ?` keeps the ids and changes only the row with that id |
| Store.Delete | backend/crud/wallets.py:43-47 | no row left carries the deleted id, and no row is added |
| Store.DeleteKeepsOthers | backend/crud/wallets.py:43-47 | the rows kept are exactly the old rows with another id |
| Store.DeleteAbsent | backend/crud/wallets.py:43-47 | deleting an id no row carries leaves the table unchanged |
| Store.DeletePresent | backend/crud/wallets.py:43-47 | with unique ids, deleting a present id removes exactly one row |
| Store.DeleteInserted | backend/crud/wallets.py:43-47 | deleting the row an insert just added gives back the previous table |
| Store.FindUpdate | backend/crud/wallets.py:19-41 | after an update the id reads back the new data and every other id reads as before |
| Store.FindInsert | backend/crud/wallets.py:7-17 | after an insert the new id reads back the inserted data and older ids are unchanged |
| Store.IdsWhere | backend/crud/wallets.py:55-59 | a `SELECT id ... WHERE` selects the id of every matching row, and never more ids than rows |
| Store.IdsWhereSound | backend/crud/wallets.py:55-59 | every selected id is the id of a matching row |
| Store.IdsWhereAscending | backend/crud/wallets.py:55-59 | over a table with ascending ids the selected ids ascend |
| Sorting.SortBy | backend/high_level/analysis.py:488-495 | `sorted(..., key=...)` returns a permutation of its input that is sorted by the key |
| Sorting.SortByStable | backend/high_level/analysis.py:488-495 | `sorted` is stable: the elements that tie under the key come out in their input order |
| Text.ParseInt | backend/high_level/import_data.py:32-44 | `int(s)` accepts exactly an optional sign followed by digits |
| Text.ParseIntToString | backend/high_level/import_data.py:32-44 | `int(str(i)) == i` for every integer |
| Text.IntToStringInjective | frontend/views/insights.py:685-693 | distinct integers render as distinct text |
| Text.StripIdempotent | backend/high_level/import_data.py:54-58 | `strip` applied twice equals `strip` applied once |
| Values.ParseFloat | backend/high_level/import_data.py:46-52 | a successful read is a canonical decimal |
| Values.ParseFloatRepr | backend/high_level/import_data.py:46-52 | `float(str(x)) == x` for every canonical float |
| Values.NormalizeKeepsValue | backend/high_level/import_data.py:46-52 | normalizing a decimal keeps the number it denotes |
| Values.GetSet | backend/high_level/import_data.py:180-200 | a key written into a dict reads back as the written value, and other keys are untouched |
| Values.SetNew | backend/high_level/import_data.py:180-200 | setting a key the dict lacks appends the pair at the end |
| Values.DictOfDistinct | backend/high_level/import_data.py:432-443 | a dict built from distinct keys holds the pairs in order |
| JsonText.Encode | backend/high_level/export_data.py:140-154 | `json.dumps` text is never empty and never starts with whitespace, a comma or a closing bracket |
| JsonText.EscapeStringRoundTrip | backend/high_level/export_data.py:154 | every string escaped by `json.dumps`, with or without `ensure_ascii`, is read back unchanged by `json.loads` |
| JsonText.UnitEscapeRoundTrip | backend/crud/profile.py:38 | a `\uXXXX` escape of a character outside the surrogate range reads back as that character |
| JsonText.PairEscapeRoundTrip | backend/crud/profile.py:38 | a surrogate pair of `\uXXXX` escapes, as `ensure_ascii` writes for a character above U+FFFF, reads back as that one character |
| JsonText.NumberRoundTrip | backend/high_level/export_data.py:154 | every int and canonical float written by `json.dumps` reads back as the same number |
| JsonText.DecodeEncode | backend/high_level/export_data.py:140-154 | `json.loads(json.dumps(v)) == v` for every value with canonical floats, with or without `ensure_ascii` |
| Categories.IdByName | backend/crud/categories.py:65-74 | `SELECT id WHERE name = ?` gives the id of the first row with exactly this name, and None when no row has it |
| Categories.IdByNameAt | backend/crud/categories.py:65-74 | in a table with unique names, each row's own name finds that row |
| Categories.Added | backend/crud/categories.py:7-17 | an insert onto a taken name is refused with `IntegrityError` and changes nothing; otherwise one row with the defaults is appended |
| Categories.AddedKeepsUnique | backend/crud/categories.py:7-17 | an accepted insert keeps names unique, and the new name reads back the new id |
| Categories.AddCategory | backend/crud/categories.py:7-17 | the method changes only the category table, as `Added` prescribes, and reports the refusal |
| Categories.Edited | backend/crud/categories.py:19-42 | a None name, limit, kind or currency keeps its stored field, and a given one replaces it |
| Categories.EditedRows | backend/crud/categories.py:19-42 | an unknown id changes nothing; a rename onto another row's name is refused; otherwise the row with that id reads back as `Edited` of its old value and every other row is unchanged |
| Categories.EditedKeepsUnique | backend/crud/categories.py:19-42 | an accepted edit keeps category names unique |
| Categories.EditedNameClash | backend/crud/categories.py:19-42 | once an edit is accepted, the edited name differs from every other row's name |
| Categories.EditCategory | backend/crud/categories.py:19-42 | the method leaves the store as `EditedRows` prescribes |
| Categories.Removed | backend/crud/categories.py:44-51 | an absent id is a no-op, and otherwise exactly that row is removed |
| Categories.RemovedKeepsUnique | backend/crud/categories.py:44-51 | removing a category keeps names unique |
| Categories.RemoveCategory | backend/crud/categories.py:44-51 | the method leaves the store as `Removed` prescribes |
| Categories.CategoryIdByName | backend/crud/categories.py:65-74 | the lookup reads the database at the hard-coded path, whatever database the rest of the store uses |
| Categories.CategoryIdByNameIgnoresOtherPaths | backend/crud/categories.py:65-74 | the database at any other path never affects the answer |
| Categories.Seeded | backend/crud/categories.py:82-108 | seeding only appends: the old rows are kept, names stay unique, and at most one row is added per default category |
| Categories.SeededHasSeeds | backend/crud/categories.py:82-108 | after seeding every default name is in the table |
| Categories.SeededAppendsMissing | backend/crud/categories.py:82-108 | the rows seeding appends are exactly the default categories whose names are absent, in list order, each with its own limit, kind and currency |
| Categories.SeededKeepsUnique | backend/crud/categories.py:82-108 | seeding keeps names unique |
| Categories.SeededPresent | backend/crud/categories.py:82-108 | seeding a table that already holds every default name changes nothing |
| Categories.SeededIdempotent | backend/crud/categories.py:82-108 | `add_categories` is idempotent |
| Categories.AddCategories | backend/crud/categories.py:82-108 | the seeding loop leaves the store as `Seeded` prescribes |
| Categories.AddEach | backend/crud/categories.py:103-108 | one `add_category` per seed, in order, leaves a valid store whose categories are `Seeded` by those seeds and whose other tables are unchanged |
| Wallets.AddWallet | backend/crud/wallets.py:7-17 | the new wallet row is appended with the given or default amount and currency, and nothing else changes |
| Wallets.Edited | backend/crud/wallets.py:19-41 | each None argument keeps its stored field |
| Wallets.EditedRows | backend/crud/wallets.py:19-41 | an unknown id changes nothing, and otherwise only that row changes |
| Wallets.EditNothing | backend/crud/wallets.py:19-41 | an edit that supplies nothing leaves the table unchanged |
| Wallets.EditWallet | backend/crud/wallets.py:19-41 | the method leaves the store as `EditedRows` prescribes |
| Wallets.RemoveWallet | backend/crud/wallets.py:43-47 | only the row with that id is removed |
| Wallets.WalletsByCurrency | backend/crud/wallets.py:55-59 | gives exactly the ids of the wallets held in that currency, ascending over a valid table |
| Wallets.HeldInSelects | backend/crud/wallets.py:55-59 | the currency filter selects every wallet in that currency and only such wallets, in ascending id order |
| Expenses.AddExpense | backend/crud/expenses.py:7-17 | the expense row is appended with its optional fields as given, and nothing else changes |
| Expenses.Edited | backend/crud/expenses.py:19-45 | each None argument keeps its stored field, and each given one replaces it |
| Expenses.EditedRows | backend/crud/expenses.py:19-45 | an unknown id changes nothing; otherwise the row with that id reads back as `Edited` of its old value and every other row is unchanged |
| Expenses.EditExpense | backend/crud/expenses.py:19-45 | the method leaves the store as `EditedRows` prescribes |
| Expenses.RemoveExpense | backend/crud/expenses.py:47-51 | only the row with that id is removed |
| Expenses.ExpensesByDateRange | backend/crud/expenses.py:65-69 | gives exactly the ids of expenses dated within `[start, end]` |
| Expenses.DatedWithinSelects | backend/crud/expenses.py:65-69 | the date filter selects every expense dated within `[start, end]` and only such expenses |
| Expenses.DateRangeInclusive | backend/crud/expenses.py:65-69 | expenses dated on either end of the range are selected |
| Expenses.Joined | backend/crud/expenses.py:89-147 | the left join keeps every expense once, in order, with its id, name, cost, date, description and wallet, and the name of its category, or None when it has no category or the category is missing |
| Expenses.OrderExpenses | backend/crud/expenses.py:89-147 | options 1 to 5 give a permutation of the joined list sorted by that option's key, and any other option raises `ValueError` |
| Expenses.NewestFirst | backend/crud/expenses.py:89-147 | option 5 never lists an older date before a newer one |
| Goals.AddGoal | backend/crud/goals.py:7-17 | the goal row is appended not completed and with no end date, and nothing else changes |
| Goals.Edited | backend/crud/goals.py:19-59 | each None argument keeps its stored field, each given one replaces it, and `completed` and the dates are never touched |
| Goals.EditedRows | backend/crud/goals.py:19-59 | an unknown id changes nothing, and otherwise only that row changes |
| Goals.EditGoal | backend/crud/goals.py:19-59 | the method leaves the store as `EditedRows` prescribes |
| Goals.RemoveGoal | backend/crud/goals.py:61-65 | only the row with that id is removed |
| Goals.GoalsByCategory | backend/crud/goals.py:73-77 | a None category matches no row, and otherwise the result is exactly the goals in that category |
| Goals.InCategorySelects | backend/crud/goals.py:73-77 | the category filter selects every goal in that category and only such goals |
| Profiles.FieldsGet | backend/crud/profile.py:28-42 | the fields dict holds exactly the requested columns |
| Profiles.FieldsNeverEmpty | backend/crud/profile.py:44-46 | the early `return True` for an empty dict can never fire |
| Profiles.Filtered | backend/crud/profile.py:49-52 | only keys that name a column of the profile table are kept |
| Profiles.NameOrUser | backend/crud/profile.py:57-64 | the inserted name is never empty (the given name, or "User") |
| Profiles.Upserted | backend/crud/profile.py:14-83 | only the profile table changes; an empty table gets one row, and otherwise the row count is kept |
| Profiles.UpsertFails | backend/crud/profile.py:14-83 | the upsert fails exactly when the INSERT lacks a `name` column or the UPDATE would have an empty SET list |
| Profiles.UpsertCreates | backend/crud/profile.py:57-64 | on an empty table the new row holds the non-empty name, each requested column, and the column default everywhere else |
| Profiles.UpsertUpdates | backend/crud/profile.py:65-80 | the first row keeps its id, gets every requested column plus `updated_at`, and keeps every other column |
| Profiles.UpsertKeepsOmitted | backend/crud/profile.py:14-83 | an omitted argument, other than the wallet and the theme, leaves its column as it was |
| Profiles.UpsertClearsWalletAndTheme | backend/crud/profile.py:35-42 | an omitted main wallet or theme still overwrites the stored value with NULL |
| Profiles.UpsertProfile | backend/crud/profile.py:14-83 | the method leaves the store as `Upserted` prescribes and returns its success flag |
| Profiles.ParsedSkip | backend/crud/profile.py:113-118 | text that strips to something starting with `[` is JSON-decoded, and anything else or a failed decode is kept as stored |
| Profiles.SkipMonthsRoundTrip | backend/crud/profile.py:113-118 | stored skipped months read back as the stored list |
| Profiles.ProfileDictThemeId | backend/crud/profile.py:120-131 | the profile dict always carries `theme_id`, an alias of the stored `theme` |
| Profiles.CurrentProfile | backend/crud/profile.py:85-132 | the read gives the first row as a dict, or None on an empty table |
| Profiles.UpsertThenReadSkipMonths | backend/crud/profile.py:85-132 | months saved by an upsert are read back as the same list |
| Profiles.LastLoginUpdated | backend/crud/profile.py:134-159 | only the profile table changes, an empty table gets one row, and it fails exactly when `last_login` is missing, or the table is empty and has no `name` column |
| Profiles.LastLoginStamped | backend/crud/profile.py:134-159 | after the stamp `last_login` is the timestamp, and only `updated_at` changes beside it |
| Profiles.UpdateLastLogin | backend/crud/profile.py:134-159 | the method leaves the store as `LastLoginUpdated` prescribes |
| Profiles.SplitFour | backend/crud/profile.py:221 | a stored hash splits back on `$` into its four fields |
| Profiles.PasswordVerified | backend/crud/profile.py:209-230 | fails exactly when a string password meets a table without `password_hash`; a verified password is a string and the stored hash is non-empty |
| Profiles.PasswordIsSet | backend/crud/profile.py:182-189 | a password is set exactly when the first row has a non-empty hash |
| Profiles.RowEnsured | backend/crud/profile.py:169-180 | the result is the first row's id; a non-empty table is unchanged, and an empty one gets a row unless it has no `name` column |
| Profiles.PasswordSet | backend/crud/profile.py:191-207 | a non-string or empty password raises `ValueError` and changes nothing; only the profile table changes, and a success leaves a row |
| Profiles.PasswordSetStores | backend/crud/profile.py:191-207 | after a successful set the first row holds the stored hash |
| Profiles.StoredHashMatches | backend/crud/profile.py:209-230 | a stored hash verifies a password exactly when the derived keys agree |
| Profiles.HashMatchesLayout | backend/crud/profile.py:218-228 | a hash laid out as `alg$n$salt$key` with a positive count verifies a password exactly when that password derives `key` from the salt and count |
| Profiles.VerifyAfterSet | backend/crud/profile.py:191-230 | after `set_password(p)`, `verify_password(q)` holds exactly when q derives p's key, so p itself verifies |
| Profiles.PasswordChanged | backend/crud/profile.py:232-238 | the new password is set only after the old one verifies |
| Profiles.ChangeThenVerify | backend/crud/profile.py:232-238 | after a successful change the new password is the one that verifies |
| Profiles.SetPassword | backend/crud/profile.py:191-207 | the method leaves the store as `PasswordSet` prescribes |
| Profiles.ChangePassword | backend/crud/profile.py:232-238 | the method leaves the store as `PasswordChanged` prescribes |
| Analysis.Charged | backend/high_level/analysis.py:81-130 | the wallet pays the cost only when it exists, and nothing else changes |
| Analysis.Refunded | backend/high_level/analysis.py:26-79 | the wallet gets the cost back only when it exists |
| Analysis.ChargedTotal | backend/high_level/analysis.py:81-130 | a charge takes the cost out of the wallet total, and a refund puts it back, exactly when the wallet exists |
| Analysis.RefundCharged | backend/high_level/analysis.py:26-79 | refunding what was charged restores the wallets exactly |
| Analysis.Recorded | backend/high_level/analysis.py:81-130 | the expense is inserted and reads back under its new id; only expenses and wallets change |
| Analysis.RecordedTotal | backend/high_level/analysis.py:81-130 | recording lowers the wallet total by the cost exactly when the expense names an existing wallet |
| Analysis.Redone | backend/high_level/analysis.py:26-79 | only expenses and wallets change; either nothing changes, or the expense is gone and the table is one row shorter |
| Analysis.RedoAfterRecord | backend/high_level/analysis.py:26-79 | redoing a just-recorded expense with an existing wallet gives back the previous store |
| Analysis.RedoAfterRecordNoWallet | backend/high_level/analysis.py:26-79 | without an existing wallet, redo leaves the recorded expense in place |
| Analysis.RecordExpense | backend/high_level/analysis.py:81-130 | the method leaves the store as `Recorded` prescribes |
| Analysis.RedoExpense | backend/high_level/analysis.py:26-79 | the method leaves the store as `Redone` prescribes |
| Analysis.Transferred | backend/high_level/analysis.py:524-560 | a refused transfer (missing wallet, non-positive or uncovered amount, different currencies) changes nothing, and ids are kept |
| Analysis.TransferMoves | backend/high_level/analysis.py:555-559 | between two distinct wallets the giver loses the amount and the receiver gains it |
| Analysis.TransferKeepsTotal | backend/high_level/analysis.py:524-560 | between distinct wallets every transfer keeps the total |
| Analysis.SelfTransferGrows | backend/high_level/analysis.py:555-559 | a transfer from a wallet to itself raises its balance by the amount |
| Analysis.TransferredChecked | backend/high_level/analysis.py:524-560 | with the self-transfer guard, every transfer keeps the total |
| Analysis.TransferMoney | backend/high_level/analysis.py:524-560 | the method leaves the wallets as `Transferred` prescribes |
| Analysis.Completed | backend/high_level/analysis.py:362-431 | when goal and wallet exist, that wallet is debited by the goal's `amount_to_reach` and no other wallet changes, one "goal completed" expense is logged and the goal is deleted; otherwise nothing changes |
| Analysis.CompletedTotal | backend/high_level/analysis.py:362-431 | completing a goal takes its amount out of the wallet total |
| Analysis.RedoCompletedGoal | backend/high_level/analysis.py:362-431 | redoing the logged expense refunds the wallet, and the goal stays deleted |
| Analysis.CompleteGoal | backend/high_level/analysis.py:362-431 | the method leaves the store as `Completed` prescribes |
| Analysis.VariableCategoryIds | backend/high_level/analysis.py:455 | an id is in the result exactly when some category of type 0 has it |
| Analysis.FilterByToggle | backend/high_level/analysis.py:452-456 | toggle 0 returns the list unchanged; otherwise exactly the expenses in variable categories are kept, in order |
| Analysis.MonthOptionsAsWritten | backend/high_level/analysis.py:458-463 | `n` entries, each month in 1..12, the first being the current month |
| Analysis.MonthOptionsJanuary | backend/high_level/analysis.py:461 | from January the second entry is December of the next year |
| Analysis.MonthOptions | backend/high_level/analysis.py:458-463 | n valid (year, month) pairs, starting now, each one month before the previous |
| Analysis.OrderWallets | backend/high_level/analysis.py:473-495 | the result is a permutation of the wallets sorted by the mode's key, with id as the default |
| Analysis.OrderWalletsStable | backend/high_level/analysis.py:488-495 | wallets with equal keys keep their table order, as `sorted` does, `reverse=True` included |
| Analysis.Totals | backend/high_level/analysis.py:512-518 | one entry per currency held, each the sum of that currency's balances |
| Analysis.CalcNetworth | backend/high_level/analysis.py:497-522 | mode 1 gives `Totals`, and any other mode raises `ValueError` |
| Analysis.Uncompleted | backend/high_level/analysis.py:276 | exactly the goals that are not completed, in their table order |
| Analysis.OrderGoals | backend/high_level/analysis.py:260-293 | options 1 to 5 give the goals, or only the uncompleted ones for option 2, sorted by the option's key; other options raise `ValueError` |
| Db.HasCoreTables | backend/db.py:43-52 | true exactly when both `expense` and `wallet` exist, and false when the catalog query fails |
| Db.Added | backend/db.py:76-105 | the column set gains the column with its default; rows keep their ids; an existing column changes nothing; nothing else changes |
| Db.BackfilledRow | backend/db.py:92-97 | a row that needs no backfill is kept |
| Db.SecurityStep | backend/db.py:88-97 | `password_hash` is added, nothing changes when it is already present, and rows keep their ids |
| Db.Migrated | backend/db.py:68-107 | only the profile rows and columns change, and rows keep their ids |
| Db.MigratedHasColumns | backend/db.py:68-107 | after the migration the profile table has every column the migration adds |
| Db.MigrateIdempotent | backend/db.py:68-107 | a second migration changes nothing |
| Db.AddedKeeps | backend/db.py:76-105 | adding one column keeps every other column of every row |
| Db.NoBackfillWhenPresent | backend/db.py:88-97 | a store that already has `password_hash` keeps every stored hash |
| Db.SecurityBackfills | backend/db.py:88-97 | states the hash each row holds after the column is added beside `backup_password` |
| Db.BackfillFromBackup | backend/db.py:91-97 | in the adding run, a row's new hash is its backup when that backup is neither NULL nor empty |
| Db.MigrateProfileSchema | backend/db.py:68-107 | the method leaves the store as `Migrated` prescribes, with the local column set tracking the table |
| Db.AddPreferences | backend/db.py:75-85 | the User and Preferences blocks leave the store as `Preferences` prescribes |
| Db.AddBookkeeping | backend/db.py:99-105 | the Export and Bookkeeping blocks leave the store as `Bookkeeping` prescribes |
| Db.AddSecurity | backend/db.py:87-97 | the Security block leaves the store as `SecurityStep` prescribes and records the column locally |
| Db.AddIfMissing | backend/db.py:76-77 | one guarded ALTER leaves the store as `Added` prescribes |
| Db.ScriptRun | backend/db.py:60-61 | the tables become the old tables plus the script's, and an existing profile table keeps its columns and their defaults |
| Db.Initialized | backend/db.py:54-66 | present core tables leave the store unchanged; it fails exactly when they are missing and there is no schema |
| Db.InitializeCreates | backend/db.py:54-66 | a schema that creates the core tables leaves them present with a migrated profile table |
| Db.InitializeIdempotent | backend/db.py:54-66 | initializing twice equals initializing once |
| Db.InitializeDatabase | backend/db.py:54-66 | the method leaves the store as `Initialized` prescribes |
| ImportSchema.ToInt | backend/high_level/import_data.py:32-44 | gives an int or None; blank text gives None; bools give 0 or 1 |
| ImportSchema.ToFloat | backend/high_level/import_data.py:46-52 | gives a canonical float or None; blank text gives None |
| ImportSchema.ToStr | backend/high_level/import_data.py:54-58 | None exactly for None, and text otherwise |
| ImportSchema.ToBool | backend/high_level/import_data.py:60-70 | gives a bool or None |
| ImportSchema.ToDateStr | backend/high_level/import_data.py:72-92 | gives None or ISO `YYYY-MM-DD` text |
| ImportSchema.IsoDateKept | backend/high_level/import_data.py:81-86 | text that already is an ISO `YYYY-MM-DD` date is given back unchanged |
| ImportSchema.ToTimestampStr | backend/high_level/import_data.py:94-104 | text is stripped and passed through |
| ImportSchema.ToJsonText | backend/high_level/import_data.py:106-118 | a list becomes its JSON text, another value its `str`, and None stays None |
| ImportSchema.ApplyNone | backend/high_level/import_data.py:32-118 | every coercer maps a missing value to None |
| ImportSchema.ToIntFloatText | backend/high_level/import_data.py:40-42 | float text is accepted by `_to_int` and truncated toward zero |
| ImportSchema.ToIntUnparsable | backend/high_level/import_data.py:32-44 | text that is neither int nor float text gives None |
| ImportSchema.ToBoolTrimsAndLowers | backend/high_level/import_data.py:60-70 | any case and surrounding spaces of a known word read as that word |
| ImportSchema.ToBoolWords | backend/high_level/import_data.py:60-70 | the known words read as their bools |
| ImportSchema.ToBoolUnknown | backend/high_level/import_data.py:60-70 | text outside both word lists gives None |
| ImportSchema.ToIntOfInt | backend/high_level/import_data.py:32-44 | an int is kept unchanged |
| ImportSchema.ToFloatOfFloat | backend/high_level/import_data.py:46-52 | a canonical float is kept unchanged |
| ImportSchema.ApplyIdempotent | backend/high_level/import_data.py:32-118 | a coercer applied to its own output changes nothing, except for whitespace-only timestamps |
| ImportSchema.TimestampWhitespaceNotIdempotent | backend/high_level/import_data.py:94-104 | `"  "` becomes `""`, which then becomes None |
| ImportSchema.TableAt | backend/high_level/import_data.py:21-27 | `TableIndex` inverts indexing into `_IMPORT_TABLES` |
| ImportSchema.TableNamed | backend/high_level/import_data.py:21-27 | a name denotes an import table exactly when it matches one of the five names |
| ImportSchema.FindColumn | backend/high_level/import_data.py:171-178 | the result is the first column whose lower-cased name equals the key |
| ImportSchema.Projected | backend/high_level/import_data.py:180-200 | the projection has every column of the table, in order |
| ImportSchema.ProjectAndCoerce | backend/high_level/import_data.py:180-200 | the loop gives `Projected`: each column's coerced value from the last matching key |
| ImportSchema.MatchKeys | backend/high_level/import_data.py:187-191 | every name holds the value of the last record key whose case-insensitive canonical column it is, and nothing when no key maps to it |
| ImportSchema.CoerceColumns | backend/high_level/import_data.py:193-200 | from those matches, every schema column in schema order with its coerced value, as `Projected` defines |
| ImportSchema.MissingColumnIsNone | backend/high_level/import_data.py:180-200 | a column that no key maps to comes out as None |
| ImportSchema.UnknownKeyDropped | backend/high_level/import_data.py:180-200 | keys naming no column are dropped |
| ImportSchema.CaseInsensitive | backend/high_level/import_data.py:171-178 | records whose keys agree up to case project alike |
| ImportSchema.NormalizeTable | backend/high_level/import_data.py:202-212 | one projected record per input row |
| ImportSchema.NormalizeTables | backend/high_level/import_data.py:202-212 | exactly the five import tables, with missing ones empty |
| ImportSchema.NonDictRowAllNone | backend/high_level/import_data.py:202-212 | a non-dict row normalizes to a record whose every column is None |
| CsvImport.CoerceValue | backend/high_level/import_data.py:445-458 | None exactly for `""`; a bool only from `true`/`false` in any case; an int only from int text; a text result is the input unchanged |
| CsvImport.RowToDict | backend/high_level/import_data.py:432-443 | each header gets its stripped and coerced cell, or None past the row's end |
| CsvImport.RowRecordKeys | backend/high_level/import_data.py:432-443 | with distinct headers, the dict has exactly the header keys, in order |
| CsvImport.ShortRowPadsNone | backend/high_level/import_data.py:432-443 | short rows pad with None |
| CsvImport.ExtraCellsDropped | backend/high_level/import_data.py:432-443 | cells past the last header are ignored |
| CsvImport.CoerceIntText | backend/high_level/import_data.py:445-458 | `str(i)` reads back as i |
| CsvImport.LeadingZerosDropped | backend/high_level/import_data.py:445-458 | "007" reads back as 7 |
| CsvImport.CoerceFloatText | backend/high_level/import_data.py:445-458 | `str(x)` of a float reads back as the same float |
| CsvImport.CoerceBoolText | backend/high_level/import_data.py:445-458 | `str(True)` and `str(False)` read back as the bools |
| CsvImport.CellRoundTrip | backend/high_level/import_data.py:445-458 | writing a stored value and reading the stripped cell back gives the value |
| CsvImport.EmptyTables | backend/high_level/import_data.py:281 | the result holds exactly the five tables, all empty |
| CsvImport.AppendRecord | backend/high_level/import_data.py:318 | the named table gains the record at its end, and every other table is unchanged |
| CsvImport.KnownTables | backend/high_level/import_data.py:323 | the result holds exactly the five tables, with missing ones empty |
| CsvImport.ReadCsvSingleFile | backend/high_level/import_data.py:278-323 | the loop over the rows gives `CsvTables` |
| CsvImport.ReadRow | backend/high_level/import_data.py:297-320 | one row advances the reader state exactly as the `Step` definition does: blank rows and `__EXPORT__` rows skipped, `__TABLE__` switches section, then header, then data |
| CsvImport.BlankRowSkipped | backend/high_level/import_data.py:278-323 | a leading blank row is skipped |
| CsvImport.ExportRowSkipped | backend/high_level/import_data.py:278-323 | a row whose first cell strips to `__EXPORT__` is skipped |
| CsvImport.SkippedRowInvisible | backend/high_level/import_data.py:278-323 | blank and `__EXPORT__` rows can be dropped anywhere without changing the result |
| CsvImport.RowsBeforeMarkerDropped | backend/high_level/import_data.py:278-323 | rows before the first `__TABLE__` marker are ignored |
| CsvImport.NoMarkerNoRecords | backend/high_level/import_data.py:278-323 | a file without a marker reads as five empty tables |
| CsvImport.DataRowsRead | backend/high_level/import_data.py:278-323 | under a header every data row appends its record to the current table |
| CsvImport.SectionRead | backend/high_level/import_data.py:278-323 | a marker, a header and data rows append the section's records under the stripped name |
| CsvImport.UnknownSectionIgnored | backend/high_level/import_data.py:278-323 | a section under a name that is not an import table changes nothing |
| CsvImport.ZipTables | backend/high_level/import_data.py:325-354 | each table is its member's records, or empty when the member is missing |
| CsvImport.ReadMember | backend/high_level/import_data.py:340-352 | one member's loop gives one dict per non-blank row after the header |
| CsvImport.ReadCsvZip | backend/high_level/import_data.py:325-354 | the loop gives `ZipTables` |
| ImportDetect.DictItems | backend/high_level/import_data.py:356-373 | exactly the object items of the list |
| ImportDetect.DictItemsOfDicts | backend/high_level/import_data.py:356-373 | a list of objects is kept whole |
| ImportDetect.ReadJsonDocument | backend/high_level/import_data.py:356-373 | undecodable text fails, a non-object document fails, and a success holds only object rows |
| ImportDetect.ReadJsonSingleFile | backend/high_level/import_data.py:356-373 | the loop gives `ReadJsonDocument` |
| ImportDetect.ReadJsonZipMembers | backend/high_level/import_data.py:375-393 | each table is its member's object items, and an undecodable member fails the read |
| ImportDetect.ReadJsonZip | backend/high_level/import_data.py:375-393 | the loop gives `ReadJsonZipMembers` |
| ImportDetect.DbRows | backend/high_level/import_data.py:418-430 | only dict rows |
| ImportDetect.DbTables | backend/high_level/import_data.py:395-416 | every import table read as `DbRows` |
| ImportDetect.ReadDbCopy | backend/high_level/import_data.py:395-416 | the loop gives `DbTables` |
| ImportDetect.ReadDbTable | backend/high_level/import_data.py:406-413 | after one more pass, the first k+1 tables hold their database rows and the others are still empty |
| ImportDetect.Load | backend/high_level/import_data.py:224-261 | `FileNotFoundError` exactly when the path is empty or the file is missing |
| ImportDetect.LoadZip | backend/high_level/import_data.py:233-244 | a zip that cannot be read never fails with `FileNotFoundError` |
| ImportDetect.LoadByName | backend/high_level/import_data.py:246-261 | a single file that cannot be read never fails with `FileNotFoundError` |
| ImportDetect.ImportAllFromPath | backend/high_level/import_data.py:216-274 | a missing path raises `FileNotFoundError` and changes nothing; otherwise the tables are normalized, a dry run leaves the store as it was, and any other run merges them and records `apply_import`'s None as the apply result |
| ImportDetect.ImportLoaded | backend/high_level/import_data.py:262-274 | the result carries the normalized tables; a dry run leaves the store and the apply result empty, otherwise the store becomes the merged one and the apply result is the None `apply_import` returns |
| ImportDetect.DbSuffixFirst | backend/high_level/import_data.py:229-231 | a `.db` name is read as a database even when the file is a zip |
| ImportDetect.ZipBeforeSuffix | backend/high_level/import_data.py:233-244 | a zip is read by its members, whatever its name says except `.db` |
| ImportDetect.ZipMemberPriority | backend/high_level/import_data.py:237-244 | a zip with both CSV and JSON members is read as CSV, and one with neither is refused |
| ImportDetect.FallbackToCsv | backend/high_level/import_data.py:254-261 | without a known suffix, a file that is not JSON is read as sectioned CSV |
| ImportDetect.LoadsCsvZip | backend/high_level/import_data.py:237-239 | a zip with a `.csv` member goes to the CSV zip reader |
| ImportDetect.LoadsJsonZip | backend/high_level/import_data.py:240-242 | a zip with `.json` and no `.csv` members goes to the JSON zip reader |
| ImportDetect.UppercaseMemberReadsEmpty | backend/high_level/import_data.py:236-238 | a zip holding only `CATEGORY.CSV` is detected as a CSV zip but reads as empty tables |
| ImportDetect.JsonDocumentRoundTrip | backend/high_level/import_data.py:356-373 | the JSON export reads back as the database reader reads the same database |
| ImportDetect.JsonExportImported | backend/high_level/import_data.py:250-252 | importing the single-file JSON export gives the exported database's tables |
| ImportDetect.JsonSuffixNoFallback | backend/high_level/import_data.py:250-252 | a `.json` file of the wrong shape is not retried as CSV |
| ImportDetect.JsonZipNamesEnding | backend/high_level/export_data.py:171-177 | every JSON zip member ends in `.json` and never in `.csv` |
| ImportDetect.JsonZipReadBack | backend/high_level/import_data.py:375-393 | the JSON zip reader gives back the exported tables |
| ImportDetect.JsonZipExportImported | backend/high_level/import_data.py:240-242 | importing the JSON zip export gives the exported database's tables |
| ImportDetect.ManifestIsCsv | backend/high_level/export_data.py:93-94 | a zip holding `manifest.csv` has a `.csv` member |
| ImportDetect.CsvZipExportImported | backend/high_level/import_data.py:237-239 | importing the CSV zip export gives, per table, what the single-file CSV export reads back as |
| ImportDetect.DbExportImported | backend/high_level/import_data.py:229-231 | a database copy under the default name is imported with the source's tables |
| Export.CsvRow | backend/high_level/export_data.py:85 | one cell per column, with NULL written as the empty string |
| Export.WriteSection | backend/high_level/export_data.py:79-87 | a blank row, the marker, then the columns and data rows, or `(no columns)` |
| Export.WriteBody | backend/high_level/export_data.py:81-87 | appends the column row and one row per data row, or the single `(no columns)` row |
| Export.WriteDataRows | backend/high_level/export_data.py:83-85 | one written row per fetched row, in order |
| Export.ExportAllToCsv | backend/high_level/export_data.py:69-88 | the `__EXPORT__` header row, then one section per export table, in order |
| Export.ColumnsRead | backend/high_level/import_data.py:278-323 | the exported columns are read back as the header row |
| Export.NoColumnsRead | backend/high_level/export_data.py:87 | the `(no columns)` row is read back as a header row |
| Export.SectionReadBack | backend/high_level/export_data.py:79-87 | reading one exported section appends exactly its records under the table's name |
| Export.HeaderSkipped | backend/high_level/export_data.py:75 | the reader skips the `__EXPORT__` header row |
| Export.CsvLayoutRead | backend/high_level/export_data.py:69-88 | reading the export skips the header and then appends every section in turn |
| Export.CsvExportImportRoundTrip | backend/high_level/export_data.py:46-105 | reading the single-file CSV export gives, per table, the records of its non-blank rows keyed by its columns |
| Export.TableDicts | backend/high_level/export_data.py:151 | a table without columns gives `[]`, and otherwise one dict per row |
| Export.RowsToDicts | backend/high_level/export_data.py:39-44 | one dict per row, in row order, keyed by the columns |
| Export.TableDictsKeyed | backend/high_level/export_data.py:39-44 | each dict has exactly the table's columns as keys, in order, with the row's values |
| Export.MemberNamesDistinct | backend/high_level/export_data.py:171-177 | the zip member names are distinct |
| Export.ManifestNotATable | backend/high_level/export_data.py:166-177 | no table member is named like the manifest |
| Export.JsonTablesObjectAt | backend/high_level/export_data.py:140-151 | the `tables` object holds exactly the five tables, each as its list of row dicts |
| Export.JsonPayloadTables | backend/high_level/export_data.py:140-151 | the payload's `tables` holds every table's rows as dicts |
| Export.ExportAllToJson | backend/high_level/export_data.py:138-155 | the payload built is `JsonPayload` of the database |
| Export.FetchJson | backend/high_level/export_data.py:149-150 | a table's entry is its list of row dicts, or `[]` when it has no columns |
| Export.JsonZipAt | backend/high_level/export_data.py:171-177 | each table's member holds its list of row dicts |
| Export.JsonZipNames | backend/high_level/export_data.py:158-177 | the zip holds the manifest and the table members, and nothing else |
| Export.WriteJsonMembers | backend/high_level/export_data.py:171-177 | the loop writes each table's member after what the zip already holds |
| Export.ExportJsonZip | backend/high_level/export_data.py:156-178 | the zip's members are the manifest and one JSON member per table |
| Export.CsvZipAt | backend/high_level/export_data.py:96-104 | each table's member holds its header and data rows |
| Export.CsvZipManifest | backend/high_level/export_data.py:93-94 | the CSV zip always holds `manifest.csv` |
| Export.WriteCsvMembers | backend/high_level/export_data.py:96-104 | the loop writes each table's member after what the zip already holds |
| Export.WriteCsvMember | backend/high_level/export_data.py:98-103 | a table's member is its column row then its data rows, or empty when it has no columns |
| Export.ExportCsvZip | backend/high_level/export_data.py:89-105 | the zip's members are the manifest and one CSV member per table |
| Export.CsvMemberReadBack | backend/high_level/import_data.py:325-354 | a table's member reads back as the records the single-file CSV gives for it |
| Export.CsvZipRoundTrip | backend/high_level/export_data.py:89-105 | reading the CSV zip export gives, per table, the same records as the single-file export |
| Export.ExportToDb | backend/high_level/export_data.py:180-244 | the same path raises `ValueError`, an existing destination without overwrite raises `FileExistsError`, and otherwise the source is copied |
| Export.ExportedCopy | backend/high_level/export_data.py:216-244 | the copy holds the source's tables, and the source and every other file are unchanged |
| Export.SecondExportRefused | backend/high_level/export_data.py:213-214 | without `overwrite` a second export to the same destination fails |
| Export.DefaultDbExportName | backend/high_level/export_data.py:203-205 | the default name ends in `.db` |
| ImportApply.Money | backend/high_level/import_data.py:552-574 | a falsy amount is zero |
| ImportApply.CategoryAdded | backend/high_level/import_data.py:495-513 | only the category table changes, it only grows, and the id maps are untouched |
| ImportApply.CategoryStep | backend/high_level/import_data.py:486-514 | a row without a name changes nothing; otherwise only the category table grows, and the row's old id maps to the id its name now has |
| ImportApply.LatestWallet | backend/high_level/import_data.py:524-531 | the newest wallet with that name and currency |
| ImportApply.WalletAdded | backend/high_level/import_data.py:533-537 | only the wallet table changes, it only grows, and the id maps are untouched |
| ImportApply.WalletStep | backend/high_level/import_data.py:517-549 | a row without a name changes nothing; otherwise only the wallet table grows, and the old id maps to the newest wallet of that name and currency |
| ImportApply.GoalStep | backend/high_level/import_data.py:552-574 | only the goal table changes, and the id maps are untouched |
| ImportApply.ExpenseStep | backend/high_level/import_data.py:577-601 | an invalid row changes nothing; otherwise only the expense table changes, and the id maps are untouched |
| ImportApply.ProfileArgsOf | backend/high_level/import_data.py:603-631 | the main wallet id is re-mapped through the wallet map and the skip months are parsed |
| ImportApply.ProfileUpserted | backend/high_level/import_data.py:622-635 | only the profile table and its counter change; the table never gains a second row; the counter becomes 1 or stays |
| ImportApply.ProfileStep | backend/high_level/import_data.py:603-635 | only the profile table and its counter change; the table never gains a second row; the counter becomes 1 or stays |
| ImportApply.Pass | backend/high_level/import_data.py:486 | each loop changes only its own table and bookkeeping |
| ImportApply.MergedTables | backend/high_level/import_data.py:485-601 | which loop leaves which table unchanged |
| ImportApply.Applied | backend/high_level/import_data.py:469-635 | the store stays valid and keeps its column set and table set |
| ImportApply.InsertedCountsMatchRows | backend/high_level/import_data.py:469-635 | each summary counter is the number of rows its table gained |
| ImportApply.ProfileCountedOnce | backend/high_level/import_data.py:622-635 | the profile counter is 1 exactly when the upsert went through, and the profile table never gets a second row |
| ImportApply.CategoriesPresent | backend/high_level/import_data.py:486-514 | after the category loop every importable row's name is in the table |
| ImportApply.WalletsPresent | backend/high_level/import_data.py:517-549 | after the wallet loop every importable (name, currency) has a wallet |
| ImportApply.CategoriesStable | backend/high_level/import_data.py:486-514 | when every importable name is already present, the category loop adds nothing |
| ImportApply.WalletsStable | backend/high_level/import_data.py:517-549 | when every importable wallet is present, the wallet loop adds nothing |
| ImportApply.ReimportAddsNoCategoriesOrWallets | backend/high_level/import_data.py:486-549 | importing the same tables again adds no category and no wallet |
| ImportApply.ReimportKeepsCategories | backend/high_level/import_data.py:486-549 | importing the same tables a second time leaves the category table unchanged |
| ImportApply.ReimportKeepsWallets | backend/high_level/import_data.py:486-549 | importing the same tables a second time leaves the wallet table unchanged |
| ImportApply.GoalsInserted | backend/high_level/import_data.py:552-574 | the goal loop inserts one goal per importable row |
| ImportApply.ExpensesInserted | backend/high_level/import_data.py:577-601 | the expense loop inserts one expense per importable row and skips the rest |
| ImportApply.AppliedInsertsGoalsAndExpenses | backend/high_level/import_data.py:552-601 | one import inserts one goal and one expense per importable row |
| ImportApply.ReimportRepeatsGoalsAndExpenses | backend/high_level/import_data.py:552-601 | goals and expenses are not de-duplicated: a second import inserts them again |
| ImportApply.CategoryStepMapsResolve | backend/high_level/import_data.py:486-514 | every id recorded in the category map belongs to a stored category |
| ImportApply.ImportedRowsResolve | backend/high_level/import_data.py:552-601 | every imported goal and expense points at an existing category and wallet, or at none |
| ImportApply.IdlessCategoryAdoptsUnlinkedGoals | backend/high_level/import_data.py:514 | a category without an id claims the None key, so a goal without a category is linked to it |
| ImportApply.OnlyFirstProfileRow | backend/high_level/import_data.py:603-606 | rows after the first profile row are ignored |
| ImportApply.ImportCategory | backend/high_level/import_data.py:486-514 | one iteration leaves the store and bookkeeping as `CategoryStep` prescribes |
| ImportApply.ImportWallet | backend/high_level/import_data.py:517-549 | one iteration as `WalletStep` prescribes |
| ImportApply.ImportGoal | backend/high_level/import_data.py:552-574 | one iteration as `GoalStep` prescribes |
| ImportApply.ImportExpense | backend/high_level/import_data.py:577-601 | one iteration as `ExpenseStep` prescribes |
| ImportApply.ImportRows | backend/high_level/import_data.py:486 | one loop leaves everything as `Pass` prescribes |
| ImportApply.ImportProfile | backend/high_level/import_data.py:603-635 | step 5 as `ProfileStep` prescribes |
| ImportApply.ApplyImportReport | backend/high_level/import_data.py:469-635 | the store becomes `Applied`, and the returned summary holds its counters and errors |
| ImportApply.ApplyImport | backend/high_level/import_data.py:469-635 | the store becomes `Applied`, and the result is None |
| ImportApply.SummaryNotReturned | backend/high_level/import_data.py:632-635 | goals were inserted and counted, yet the caller receives None |
| Settings.Split | frontend/views/settings.py:571-586 | at least one piece, none holding a comma or whitespace |
| Settings.MonthTokenMeaning | frontend/views/settings.py:571-586 | a token matches exactly when it is four digits, a dash, and a month from 01 to 12 |
| Settings.Months | frontend/views/settings.py:571-586 | the first loop keeps at most the tokens it is given |
| Settings.MonthsKept | frontend/views/settings.py:571-586 | a token is kept exactly when it is one of the split tokens and matches the month pattern |
| Settings.Dedup | frontend/views/settings.py:571-586 | no repeats, and the same tokens as the input |
| Settings.DedupFirstOccurrence | frontend/views/settings.py:571-586 | the kept tokens follow their first occurrences in order |
| Settings.DedupOfDistinct | frontend/views/settings.py:571-586 | distinct tokens are kept whole |
| Settings.SkipMonths | frontend/views/settings.py:571-586 | blank text gives `[]`; otherwise distinct month tokens |
| Settings.KeepMonths | frontend/views/settings.py:576-581 | the first loop gives `Months` |
| Settings.DropRepeats | frontend/views/settings.py:582-586 | the second loop gives `Dedup` |
| Settings.ParseSkipMonthsText | frontend/views/settings.py:571-586 | the parser gives `SkipMonths` |
| Settings.SkipMonthsStable | frontend/views/settings.py:452-455 | parsing the text shown for a parsed list gives the list back |
| Settings.SkipMonthsRoundTrip | frontend/views/settings.py:571-586 | `parse(", ".join(parse(t))) == parse(t)` |
| Settings.CandidatesDiffer | frontend/views/settings.py:529 | distinct counters give distinct file names |
| Settings.FreeName | frontend/views/settings.py:526-530 | the loop ends with a name not in the vault, the source name when free, else the first free `<stem>_<i><suffix>` |
| Settings.PhotoVault.NormalizePhoto | frontend/views/settings.py:518-535 | an unsupported file gives None, a vault file keeps its path, a failed copy gives None and stores nothing, and otherwise it is copied under a free name |
| Settings.LoadedPhoto | frontend/views/settings.py:411-426 | the marker is the first profile row's non-empty stored photo path, and None when there is no row, the read fails or the photo is empty |
| Settings.SavedPhotoReloaded | frontend/views/settings.py:559-563 | a photo path the User page saves is the marker the reload gives back |
| Settings.LoadedPhotoResent | frontend/views/settings.py:538-557 | a page loaded with a stored photo never refuses with "Nothing to save on User tab.", and re-sends the photo under the vault path it normalizes to |
| Settings.UserPageSave | frontend/views/settings.py:538-568 | the upsert arguments for the name and the photo marker, or a refusal when the copy fails |
| Settings.NewPhotoSent | frontend/views/settings.py:538-568 | a new photo is sent with its vault path, and a failed copy refuses the save |
| Settings.RemoveKeepsPhoto | frontend/views/settings.py:538-568 | "Remove" sends None, which the upsert leaves out, so the stored photo survives |
| Settings.UserSaveClearsWalletAndTheme | frontend/views/settings.py:538-568 | a User page save clears the main wallet and the theme |
| Settings.PasswordProblem | frontend/views/settings.py:679-705 | None exactly when both fields are non-empty, equal and at least six characters long |
| Settings.SettingsPage.constructor | frontend/views/settings.py:59-97 | the first section is open and the pending photo is the one `_load_profile_into_ui` loads from the stored profile |
| Settings.SettingsPage.PickPhoto | frontend/views/settings.py:477-491 | a cancelled dialog changes nothing, an unsupported file flashes an error and keeps the pending photo, and a supported file becomes the pending photo |
| Settings.SettingsPage.RemovePhoto | frontend/views/settings.py:492-494 | the photo is marked for removal |
| Settings.SettingsPage.NavClick | frontend/views/settings.py:190-194 | a click on the open section saves it, and a click on another section opens it |
| Settings.SettingsPage.SaveUserPage | frontend/views/settings.py:538-568 | the store changes as `UserPageSave` prescribes for the pending photo; a refused or failed save keeps the pending photo, and a successful one reloads it from the profile it wrote |
| Settings.SettingsPage.UpsertAndReload | frontend/views/settings.py:559-568 | a successful upsert flashes "Saved" and reloads the pending photo from the new store; a failed one flashes "Save failed." and changes nothing |
| Settings.SettingsPage.SaveSecurityPage | frontend/views/settings.py:679-705 | `set_password` runs only for a valid, confirmed password |
| Themes.RegisteredIds | frontend/theme.py:41-268 | the i-th registered theme has id i |
| Themes.RegisteredKeysDistinct | frontend/theme.py:41-268 | no two registered themes share a key |
| Themes.ById | frontend/theme.py:271-289 | every theme's id is a key, and each entry is a listed theme with that id |
| Themes.ByKey | frontend/theme.py:283-296 | every theme's key is a key, and each entry is a listed theme with that key |
| Themes.ThemesByIdContents | frontend/theme.py:271-289 | the registered ids are exactly 0 to 11, each holding its theme |
| Themes.ThemesByKeyContents | frontend/theme.py:283-296 | every registered theme is found under its key |
| Themes.ThemeFromId | frontend/theme.py:500-502 | a registered id gives its theme, and any other id gives the default theme |
| Themes.ThemeFromKey | frontend/theme.py:505-507 | a registered key gives its theme, and any other key gives the default theme |
| Themes.KeyOfIdRoundTrip | frontend/theme.py:500-507 | looking up the key of the theme an id resolves to gives that theme back |
| Themes.SortById | frontend/theme.py:494 | the sort is a permutation of the themes |
| Themes.SortByIdSorted | frontend/theme.py:494 | the sort's result is in increasing id order |
| Themes.SortSorted | frontend/theme.py:494 | sorting themes already in id order changes nothing |
| Themes.Options | frontend/theme.py:492-497 | one `(id, label)` per theme, ids ascending |
| Themes.ThemeOptionsListed | frontend/theme.py:492-497 | twelve options, entry i being `(i, label of theme i)` |
| Themes.AsInt | frontend/theme.py:540-553 | ints and bools pass the `isinstance(v, int)` test, and nothing else does |
| Themes.ResolveThemeId | frontend/theme.py:522-560 | the explicit id wins, then the profile's int value, and otherwise the default id |
| Themes.StoredThemeResolved | frontend/theme.py:540-553 | with the stored profile, the `theme_id` alias always decides |
| Themes.ThemeState.CurrentTheme | frontend/theme.py:510-511 | the current theme is always a registered theme |
| Themes.ThemeState.OnThemeChanged | frontend/theme.py:574-579 | the subscriber is appended |
| Themes.ThemeState.ApplyAppTheme | frontend/theme.py:522-571 | the resolved id is selected, and every subscriber is notified once, in order, with its theme |
| Themes.ThemeState.Notify | frontend/theme.py:566-571 | one notification per subscriber, in registration order |
| Themes.UnregisteredIdKept | frontend/theme.py:559-560 | an unregistered id is kept while the theme falls back to the default |
| Themes.CanvasThemeAsWritten | frontend/theme.py:450-451 | the lookup raises `KeyError` exactly for an unregistered id |
| Themes.CanvasFailsAfterUnregistered | frontend/theme.py:450-451 | an unregistered id accepted by `apply_app_theme` makes the painter raise |
| Themes.CanvasTheme | frontend/theme.py:450-451 | the painter uses the theme `current_theme` gives |
| Themes.CanvasThemeAlwaysRegistered | frontend/theme.py:450-451 | the corrected painter always has a registered theme, the one the app shows |
| Insights.SpanOf | frontend/views/insights.py:751-786 | "year" anywhere, in any case, gives a year; else a "6" gives six months; else one month |
| Insights.MappersAgree | frontend/views/insights.py:751-786 | a year is 52 weeks and 12 months, six months are 26 weeks and 6 months, and anything else is 12 weeks and 3 months |
| Insights.SpanIgnoresCase | frontend/views/insights.py:751-786 | the combobox text is matched without regard to case |
| Insights.MonthSpan | frontend/views/insights.py:751-786 | text with neither "y" nor "6" is a one-month span |
| Insights.SixMonthSpan | frontend/views/insights.py:751-786 | text starting with "6" and holding no "y" is a six-month span |
| Insights.YearSpan | frontend/views/insights.py:751-786 | text holding "year" is a year |
| Insights.FirstItemSpan | frontend/views/insights.py:461 | "This month" is a one-month span |
| Insights.SecondItemSpan | frontend/views/insights.py:461 | "6 months" is a six-month span |
| Insights.ThirdItemSpan | frontend/views/insights.py:461 | "This year" is a year |
| Insights.NonceChangesKey | frontend/views/insights.py:685-693 | two different nonces give two different state keys |
| Insights.TileRefresh | frontend/views/insights.py:327-348 | a given key equal to the last one, with a body shown, skips the rebuild; anything else rebuilds |
| Insights.RefreshIdempotent | frontend/views/insights.py:327-348 | refreshing twice with the same non-empty key builds once |
| Insights.NewKeyRebuilds | frontend/views/insights.py:327-348 | a key the tile has not seen always rebuilds |
| Insights.ChartTile.constructor | frontend/views/insights.py:68-121 | a new tile shows a skeleton body and remembers no key |
| Insights.ChartTile.Refresh | frontend/views/insights.py:327-348 | the tile's state becomes `TileRefresh` of its old state |
| Insights.GridPos | frontend/views/insights.py:652-658 | tiles 0 to 4 go to row 0 and tiles 5 to 9 to row 1, with columns 0 to 4 |
| Insights.GridPosInjective | frontend/views/insights.py:652-658 | the ten tiles fill the ten cells, each once |
| Insights.Request | frontend/views/insights.py:696-706 | a bumping reason advances the nonce, and a start is scheduled only when none is pending |
| Insights.RequestsCoalesce | frontend/views/insights.py:696-706 | a burst of requests schedules at most one start, and the nonce counts the bumping ones |
| Insights.Start | frontend/views/insights.py:708-714 | the pending flag clears, and a visible page rewinds and starts the timer |
| Insights.Tick | frontend/views/insights.py:716-726 | the tick stops the timer at the end, and otherwise advances past one batch of at most three |
| Insights.RunRefreshesEachOnce | frontend/views/insights.py:716-726 | one run refreshes every tile from `idx` on exactly once, in increasing order |
| Insights.RunStops | frontend/views/insights.py:708-726 | from a start the timer runs until its last tick, which stops it with every tile done |
| Insights.TenTilesTakeFiveTicks | frontend/views/insights.py:716-726 | with ten tiles a run takes five ticks: three, three, three, one, then the stop |
| Insights.InsightsPage.constructor | frontend/views/insights.py:391-398 | ten skeleton tiles, nothing pending, the first timeframe selected |
| Insights.InsightsPage.RequestRefresh | frontend/views/insights.py:696-706 | the queue becomes `Request` of the old queue |
| Insights.InsightsPage.StartRefreshQueue | frontend/views/insights.py:708-714 | the queue becomes `Start` of the old queue |
| Insights.InsightsPage.RefreshTick | frontend/views/insights.py:716-726 | the queue becomes `Tick`, and exactly the batch's tiles are refreshed with the current state key |
| Insights.InsightsPage.RefreshRange | frontend/views/insights.py:724-725 | the batch's tiles, and no others, are refreshed with the key, and their indices are logged in order |

## Left out

- Floating point: money is an exact `real`, so binary rounding and `round(x, 2)` are not modelled. Import and export floats are exact canonical decimals.
- Analysis.TransferMoney: does not model the rounding of both new balances to two decimals.
- Analysis.CalcNetworth: mode 2 (conversion into one currency) is not modelled, because the source refuses it too.
- ImportSchema.ToDateStr: models only text that already is a `YYYY-MM-DD` date. The other ISO forms `datetime.fromisoformat` accepts, such as a date with a time part, a `Z` or an offset, give None in the model. So does text only the `strptime("%Y-%m-%d")` fallback accepts, such as the unpadded `2024-1-5`, which the source turns into `2024-01-05`. `date` and `datetime` objects are not modelled.
- Values.FloatRepr: writes a float as positional decimal text, while Python's `repr` switches to exponent form (`1e-05`, `1e+16`) for very small and very large values.
- Python's `int()` accepting `_` separators and non-ASCII digits, and `float()` accepting `inf` and `nan`, are not modelled. Such text is refused.
- `json.dumps` is modelled with the default separators, and with `ensure_ascii` as a flag: the profile's `skip_months` is written with the default `ensure_ascii=True`, and the export and the importer's `_to_json_text` with `False`. Pretty-printing indentation is not modelled, since it does not change the decoded value.
- JSON objects inside row values are not decoded. JSON values are limited to null, booleans, numbers, strings and lists.
- String operations cover only the ASCII part of Python's Unicode tables, including `\s` and `\d` in the month-token regex.
- The clock, the random salt, PBKDF2 and base64 are parameters. Their cryptographic properties are assumed through the `Crypto` parameter's key derivation function.
- Profiles.PasswordSet: does not model the `RuntimeError` for a profile row that cannot be ensured, because the insert before it always yields a row.
- File I/O is reduced to inputs:
  - CSV files are given as rows already split by the csv module;
  - zip archives are given as their member names and contents;
  - SQLite databases are given as their tables;
  - `os.path.abspath`, `Path.name`, `Path.stem` and `Path.suffix` are given as inputs.
- The JSON zip and CSV zip manifests are modelled as members with fixed content, since the importer never reads them.
- `VACUUM INTO` and the backup API are modelled as one exact copy of the database's tables.
- Exception messages are not modelled, only the exception kind.
- The schema script is not part of this model. Ids follow a plain `INTEGER PRIMARY KEY` without `AUTOINCREMENT`, so a deleted last id can be reused (see `Store.DeleteInserted`). Foreign-key constraints are not enforced, although `get_connection` turns them on (backend/db.py:40); the model keeps dangling references as plain values.
- A `DEFAULT CURRENT_TIMESTAMP` in the schema script is a fixed default value given with the script, not the time of each insert.
- Connection-level failures of SQLite are not modelled.
- ImportApply.ApplyImport: models the tables as normalization leaves them, which is all its one caller passes (backend/high_level/import_data.py:263, 272). On other input the model differs from the source. A non-string name is read as "" and its row is skipped, where the source's `.strip()` raises `AttributeError` and aborts the merge. A non-integer theme or main wallet id becomes None, where the source passes the raw value to `upsert_profile`.
- Settings: the Preferences page save is not modelled, and neither is widget rebuilding. Of `_load_profile_into_ui`, only the pending photo is modelled, at construction and after a successful User save; the name field is an input of each save. Copy failures are a boolean input, and `SaveUserPage` takes what `_normalize_photo_for_db` gave for the pending photo as its `normalized` input.
- Themes: the palettes, QColor values, stylesheets and `setStyleSheet` are not modelled. An exception raised by a subscriber is swallowed, so it is not modelled either.
- Insights: the Qt timers are modelled as explicit calls, and the 16 ms and 35 ms delays are not modelled. Widget factories and fade animations are not modelled.
- Insights.RunStops: does not model `hideEvent` (frontend/views/insights.py:857-863), which stops the refresh timer part-way through a run.
- Insights: the budget text and the month text that go into the state key are inputs, and so is the float formatting inside `_state_key`. `apply_toggle`, `showEvent` and the `timeframeChanged` signal are not modelled.
- The chart builders in `graphs.py` and the other views are not part of this model.

## Findings

| source | as written | input that shows it | evidently intended | confidence | as-written member | corrected member |
|---|---|---|---|---|---|---|
| backend/high_level/analysis.py:555-559 | `transfer_money` reads both balances, then writes the giver's and then the receiver's, with no check that they differ | giver == receiver == a wallet holding 100 EUR, amount 30: the balance becomes 130 | a wallet cannot transfer to itself, and the total is kept | not executed | Analysis.SelfTransferGrows | Analysis.TransferredChecked |
| backend/high_level/import_data.py:469-635 | `apply_import` builds the inserted counts and error list but has no `return`, so the caller gets None | a goal table with one named goal: one goal is inserted and counted, and `apply_result` is None | the declared `Dict[str, Any]` summary is returned | not executed | ImportApply.SummaryNotReturned | ImportApply.InsertedCountsMatchRows |
| backend/high_level/analysis.py:461 | the year of entry i is `now.year - (now.month - i - 1) // 12` | January 2025, i = 1: the entry is (2026, 12), not (2024, 12) | entry i is i months before now | not executed | Analysis.MonthOptionsJanuary | Analysis.MonthOptions |
| frontend/theme.py:450-451 | `BackgroundCanvas.paintEvent` indexes `_THEMES_BY_ID[_current_theme_id]` directly | `apply_app_theme(42)` keeps id 42, and the next paint raises `KeyError` | the painter falls back to the default theme, as `current_theme` does | not executed | Themes.CanvasFailsAfterUnregistered | Themes.CanvasThemeAlwaysRegistered |
