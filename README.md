# Additional-information scripts of the HR portal, in Dafny

The scripts in `informacoes-adicionais/` move the "additional information"
(informação adicional) and "additional-information group" registrations of
an HR portal between the portal and a Google Sheets tab, and log in to the
portal beforehand:

- `buscar_informacoes_adicionais.py` and `buscar_grupo_de_informacao_adicional.py`
  query the portal once per *conceito* (13 fixed concepts), with up to three
  attempts each. They flatten every returned record into a spreadsheet row
  and append the rows to a tab.
- `salvar_informacao_adicional.py` and `salvar_grupo_informacao_adicional.py`
  do the reverse. They read every row of a tab, build a registration form
  from it, post it, and write the portal's message into the row's
  `resultado` column. That column is created first when it is missing.
- `login_lg.py` logs in through a headless browser and
  `login_lg_sem_selenium.py` through plain HTTP. Both read a six-digit
  two-factor code from the newest unread portal mail when the account asks
  for one. Both hand back the portal's base URL (`scheme://netloc`) and the
  session cookies as one `Cookie` header.

The model keeps each script's decisions and data transformations. The
portal, the mailbox, the browser and the spreadsheet enter as parameters:

- the portal's answer to each attempt, as a function;
- each look at the mailbox, as a function;
- the browser's final page and cookies, as a function;
- a worksheet, as an object whose fields the methods update.

Modules:

| module | file | what it holds |
|---|---|---|
| `Results` | `results.dfy` | `Option` and `Result` (an uncaught Python exception is `Err` with the exception's text) |
| `Text` | `text.dfy` | `strip`, `upper`/`lower`/`capitalize`, `replace`, `split`/`join`, `str` ordering and `sorted(set(...))`, `str(int)` and `int(str)`, `str.find` |
| `Json` | `json.dfy` | JSON values as `json.loads` gives them (objects as ordered field lists), `dict.get`, truthiness, iteration |
| `Portal` | `portal.dfy` | the outcome of a POST, the concept table, `rstrip("/") + ENDPOINT_PATH`, and the retry loop of both fetch scripts |
| `Sheets` | `sheets.dfy` | the output tab of the fetch scripts (`clear`, header `update`, `append_rows`), and the tab of the save scripts (`get_all_values`, `dict(zip(...))`, `garantir_coluna_resultado`, `update_cell`) |
| `Records` | `records.dfy` | one concept's fetch and its `parse_rows`, for either fetch script |
| `FetchInfo` | `fetch_info.dfy` | `buscar_informacoes_adicionais.py` |
| `FetchGroups` | `fetch_groups.dfy` | `buscar_grupo_de_informacao_adicional.py` |
| `Saving` | `saving.dfy` | the post-and-write loop both save scripts share |
| `SaveInfo` | `save_info.dfy` | `salvar_informacao_adicional.py` |
| `SaveGroups` | `save_groups.dfy` | `salvar_grupo_informacao_adicional.py` |
| `Mail` | `mail.dfy` | the two-factor code search (`extrair_codigo_email`/`decode_part`, `extrair_texto`, `buscar_codigo_2fa`) and the 12-look poll |
| `Web` | `web.dfy` | `scheme://netloc` of a URL, the `name=value; ...` cookie header, and the cookie jar of a `requests` session |
| `LoginBrowser` | `login_browser.dfy` | `login_lg` |
| `LoginHttp` | `login_http.dfy` | the CSRF token search and `executar_login` |

A note on the additional-information fetch. Its header is built from the
sorted keys of the first record of the first concept that answers. Each row
carries the sorted keys of its own record. A row lines up with the header
only when its record has the same key set (`FetchInfo.RowMatchesHeader`).
The script does not check this.

## Model

| member | source | states |
|---|---|---|
| `Text.CapitalizeNormalForm` | informacoes-adicionais/salvar_informacao_adicional.py:127 | `capitalize` keeps the length and is idempotent; the first character is not lower-case and no later one is upper-case |
| `Text.LowerNormalForm` | informacoes-adicionais/salvar_informacao_adicional.py:128 | `lower` is idempotent and leaves no upper-case letter |
| `Text.LStrip` | informacoes-adicionais/salvar_informacao_adicional.py:107 | the result is a suffix of the input; everything removed is white space; it does not start with white space |
| `Text.RStrip` | informacoes-adicionais/salvar_informacao_adicional.py:107 | the result is a prefix of the input; everything removed is white space; it does not end with white space |
| `Text.Strip` | informacoes-adicionais/salvar_informacao_adicional.py:107 | the result neither starts nor ends with white space, and every character of it comes from the input |
| `Text.StripIsSlice` | informacoes-adicionais/salvar_informacao_adicional.py:107 | `strip` keeps one contiguous slice of the input, and everything before and after that slice is white space |
| `Text.StripUnchanged` | informacoes-adicionais/salvar_informacao_adicional.py:107 | text without white space at either end is its own strip |
| `Text.ReplaceChar` | informacoes-adicionais/salvar_informacao_adicional.py:102 | same length; each occurrence of `a` becomes `b` and every other character stays; no `a` is left when `a != b` |
| `Text.CountAppend` | informacoes-adicionais/salvar_informacao_adicional.py:103-105 | the count of a character in a concatenation is the sum of the counts |
| `Text.CountAbsent` | informacoes-adicionais/salvar_informacao_adicional.py:103 | a character's count is 0 exactly when it does not occur (`"," in value`) |
| `Text.IndexOf` | informacoes-adicionais/salvar_informacao_adicional.py:104 | the index found holds the character and no earlier index does; `None` means the character does not occur |
| `Text.IndexOfAt` | informacoes-adicionais/salvar_informacao_adicional.py:104 | the first occurrence is what `IndexOf` finds |
| `Text.Split` | informacoes-adicionais/salvar_informacao_adicional.py:104 | `split` gives one piece more than there are separators, and no piece holds a separator |
| `Text.JoinSplit` | informacoes-adicionais/salvar_informacao_adicional.py:104-106 | joining the pieces of a split gives the text back |
| `Text.SplitJoin` | informacoes-adicionais/salvar_informacao_adicional.py:104-106 | splitting a join of separator-free pieces gives the pieces back |
| `Text.LessIrreflexive` | informacoes-adicionais/buscar_informacoes_adicionais.py:126 | no string sorts before itself |
| `Text.LessTransitive` | informacoes-adicionais/buscar_informacoes_adicionais.py:126 | string order is transitive |
| `Text.LessTotal` | informacoes-adicionais/buscar_informacoes_adicionais.py:126 | of two different strings, one sorts first |
| `Text.LessAsymmetric` | informacoes-adicionais/buscar_informacoes_adicionais.py:126 | two strings never sort before each other |
| `Text.Insert` | informacoes-adicionais/buscar_informacoes_adicionais.py:126 | inserting into a strictly sorted sequence keeps it strictly sorted, with exactly the old elements and the new one |
| `Text.SortedDistinct` | informacoes-adicionais/buscar_informacoes_adicionais.py:126 | `sorted(keys)` is strictly ascending and has exactly the elements of the input |
| `Text.SortedUnique` | informacoes-adicionais/buscar_informacoes_adicionais.py:126 | two strictly sorted sequences with the same elements are equal |
| `Text.SortedDistinctCount` | informacoes-adicionais/buscar_informacoes_adicionais.py:126 | the sorted keys hold one entry per distinct key |
| `Text.SortedLength` | informacoes-adicionais/buscar_informacoes_adicionais.py:126 | a strictly sorted sequence has no repeated element |
| `Text.NatToDecimal` | informacoes-adicionais/salvar_grupo_informacao_adicional.py:70 | `str(n)` is a non-empty run of digits |
| `Text.NatToDecimalValue` | informacoes-adicionais/salvar_grupo_informacao_adicional.py:70 | the digits of `str(n)` have the value `n` |
| `Text.NatDecimalParses` | informacoes-adicionais/salvar_informacao_adicional.py:111 | `str(n)` is a digit group that `int()` accepts, with value `n` |
| `Text.ParseUnstripped` | informacoes-adicionais/salvar_informacao_adicional.py:111 | `int()` of text without surrounding white space reads it as it is |
| `Text.ParseUnsigned` | informacoes-adicionais/salvar_informacao_adicional.py:111 | `int()` of a digit group is its value |
| `Text.ParseNegative` | informacoes-adicionais/salvar_informacao_adicional.py:111 | `int()` of `-` and a digit group is the negated value |
| `Text.IntDecimalRoundTrip` | informacoes-adicionais/salvar_informacao_adicional.py:111 | `int(str(i)) == i` for every integer |
| `Text.NegativeRoundTrip` | informacoes-adicionais/salvar_informacao_adicional.py:111 | `int(str(-n)) == -n` for a positive `n` |
| `Text.Find` | informacoes-adicionais/login_lg_sem_selenium.py:129 | the leftmost occurrence at or after `i`; `None` means there is none |
| `Json.Get` | informacoes-adicionais/salvar_grupo_informacao_adicional.py:77 | a key has a value exactly when it is among the object's keys, and the value is one the object holds under that key |
| `Json.GetLastWins` | informacoes-adicionais/salvar_grupo_informacao_adicional.py:77 | for a key repeated in the body, `Get` gives the value of its last occurrence, as the dict `json.loads` builds keeps it |
| `Json.DictGet` | informacoes-adicionais/salvar_grupo_informacao_adicional.py:77 | `.get` succeeds exactly on a dict; it gives the value under the key, or the default when the key is absent; on anything else it gives the `AttributeError` text |
| `Portal.TrimTrailingSlashes` | informacoes-adicionais/buscar_informacoes_adicionais.py:140 | `rstrip("/")` gives a prefix that does not end in `/`, and only slashes were removed |
| `Portal.FetchJson` | informacoes-adicionais/buscar_informacoes_adicionais.py:72-82 | the retry loop returns the value and the pauses of the recursive definition `FetchFrom` (the loop attempt by attempt) over attempts 1 to `retries` |
| `Portal.FetchReturnsFirstSuccess` | informacoes-adicionais/buscar_informacoes_adicionais.py:74-78 | the result is the JSON of the first attempt answered with status 200 and a parsable body |
| `Portal.FetchEmptyWithoutSuccess` | informacoes-adicionais/buscar_informacoes_adicionais.py:74-82 | without such an attempt the result is `[]` |
| `Portal.FetchPausesFollowExceptions` | informacoes-adicionais/buscar_grupo_de_informacao_adicional.py:82-89 | every pause is `attempt` seconds, after an attempt that raised; pauses come in increasing attempt order; a non-200 status never pauses |
| `Portal.FetchPausesAfterEveryException` | informacoes-adicionais/buscar_grupo_de_informacao_adicional.py:82-89 | every attempt that raised before the first success is followed by its pause |
| `Records.RowsOfOnePerItem` | informacoes-adicionais/buscar_informacoes_adicionais.py:107-128 | `parse_rows` succeeds exactly when every record has a row; it then gives one row per record, in order; otherwise it fails with the first failing record's exception |
| `Records.ParseRows` | informacoes-adicionais/buscar_grupo_de_informacao_adicional.py:105-118 | the append loop computes `ParsedRows`: the records of a list, or of whatever `for item in data` walks, turned into rows |
| `Records.RowsUpToErrStays` | informacoes-adicionais/buscar_informacoes_adicionais.py:174-185 | once a concept's rows raise, the rows of all concepts are that error |
| `Records.RowsStopAt` | informacoes-adicionais/buscar_informacoes_adicionais.py:174-185 | the first concept whose rows raise decides the error of the whole loop |
| `Records.RowsStep` | informacoes-adicionais/buscar_informacoes_adicionais.py:176-179 | the rows of one more concept go after the rows of the concepts before it |
| `Records.FetchConcept` | informacoes-adicionais/buscar_informacoes_adicionais.py:176-177 | fetching and parsing one concept gives `ConceptRows` for it |
| `Sheets.Cells` | informacoes-adicionais/buscar_grupo_de_informacao_adicional.py:127 | the header row holds the names, one per cell, in order |
| `Sheets.ConcatAppend` | informacoes-adicionais/buscar_informacoes_adicionais.py:182 | appending one more batch appends its rows after the rows already written |
| `Sheets.OutputSheet.constructor` | informacoes-adicionais/buscar_informacoes_adicionais.py:85-94 | an opened tab holds its rows and has had nothing appended |
| `Sheets.OutputSheet.Clear` | informacoes-adicionais/buscar_informacoes_adicionais.py:137 | `clear` empties the tab |
| `Sheets.OutputSheet.WriteHeader` | informacoes-adicionais/buscar_informacoes_adicionais.py:169 | `update("A1", [header])` replaces the first row and keeps the others |
| `Sheets.OutputSheet.AppendRows` | informacoes-adicionais/buscar_informacoes_adicionais.py:182 | `append_rows` adds the batch after the existing rows and records the call |
| `Sheets.PairsLastWins` | informacoes-adicionais/salvar_informacao_adicional.py:69 | `dict(zip(...))` has exactly the header's names as keys, and a name that does not come again later maps to its own cell |
| `Sheets.RowMapLastWins` | informacoes-adicionais/salvar_informacao_adicional.py:69 | `zip` stops at the shorter of header and row; a repeated header name keeps its last cell |
| `Sheets.Width` | informacoes-adicionais/salvar_informacao_adicional.py:67 | the width of the values is the length of the longest row |
| `Sheets.Padded` | informacoes-adicionais/salvar_informacao_adicional.py:67 | every row comes back as wide as the widest, with its own cells first and empty cells after them |
| `Sheets.RowsAsText` | informacoes-adicionais/salvar_informacao_adicional.py:65-69 | no values at all raise (`data[0]`); otherwise there is one map per row below the header, pairing header and row |
| `Sheets.RowsAsTextFullRows` | informacoes-adicionais/salvar_informacao_adicional.py:65-69 | on a padded tab every row's map has exactly the header's names, and a name that is not repeated maps to the row's cell in its column |
| `Sheets.IndexOfName` | informacoes-adicionais/salvar_informacao_adicional.py:76 | `list.index` gives the first position holding the name |
| `Sheets.ResultColumnStable` | informacoes-adicionais/salvar_grupo_informacao_adicional.py:85-92 | the 1-based result column holds `resultado`, with none before it; a second call gives the same column and adds nothing |
| `Sheets.Worksheet.constructor` | informacoes-adicionais/salvar_informacao_adicional.py:56-62 | an opened tab holds its header and body and has had no cell written |
| `Sheets.Worksheet.EnsureResultColumn` | informacoes-adicionais/salvar_informacao_adicional.py:72-80 | with `resultado` present it returns its position + 1 and changes nothing; otherwise it adds a column, writes `resultado` into row 1 at `len + 1`, and returns `len + 1`; either way that column of the header holds `resultado` |
| `Sheets.Worksheet.UpdateCell` | informacoes-adicionais/salvar_informacao_adicional.py:188-191 | a write that does not raise records the cell; one that raises changes nothing and is reported |
| `FetchInfo.Normalize` | informacoes-adicionais/buscar_informacoes_adicionais.py:97-104 | dicts and lists become their JSON text; every other value is returned as it is |
| `FetchInfo.NormalizeIdempotent` | informacoes-adicionais/buscar_informacoes_adicionais.py:97-104 | normalising twice is normalising once |
| `FetchInfo.SortedValues` | informacoes-adicionais/buscar_informacoes_adicionais.py:116-126 | one value per distinct key, in ascending key order, each the normalised value under that key |
| `FetchInfo.FixedColumns` | informacoes-adicionais/buscar_informacoes_adicionais.py:110-125 | the prefix has six cells, with client, concept description and concept code in cells 0, 1 and 3 |
| `FetchInfo.ItemRowNotDict` | informacoes-adicionais/buscar_informacoes_adicionais.py:110 | a record that is not a dict raises the `AttributeError` of `.get` |
| `FetchInfo.ItemRowColumns` | informacoes-adicionais/buscar_informacoes_adicionais.py:118-127 | the row `ItemRow` builds for a record (the body of `parse_rows`' loop) is the six-cell prefix and then the record's normalised values in ascending key order; its length is 6 plus the number of keys |
| `FetchInfo.ItemRowNoGroup` | informacoes-adicionais/buscar_informacoes_adicionais.py:110-114 | a record whose group is missing or empty gives a row, with `modulo`, `codigo_inf` and `desc_inf` `None` |
| `FetchInfo.ItemRowNoEntity` | informacoes-adicionais/buscar_informacoes_adicionais.py:111-114 | a group whose entity is missing or empty gives a row, with `modulo` `None` |
| `FetchInfo.HeaderKeys` | informacoes-adicionais/buscar_informacoes_adicionais.py:158-166 | a falsy example gives the fallback names; a list whose first record is a dict gives that record's sorted keys; a first record that is not a dict raises |
| `FetchInfo.ProbeTruthyIff` | informacoes-adicionais/buscar_informacoes_adicionais.py:152-156 | the example is truthy exactly when some concept answers with a truthy value |
| `FetchInfo.ProbeFindsFirstAnswer` | informacoes-adicionais/buscar_informacoes_adicionais.py:152-156 | the example is the answer of the first concept that answers truthily |
| `FetchInfo.RowMatchesHeader` | informacoes-adicionais/buscar_informacoes_adicionais.py:159-168 | a record with the same keys as the header's record gives a row as long as the header, with each value under its own key's column |
| `FetchInfo.ValuesUnderKeys` | informacoes-adicionais/buscar_informacoes_adicionais.py:126 | the value cells of a row sit under the key names of a header built from the same keys |
| `FetchInfo.SameKeysSameOrder` | informacoes-adicionais/buscar_informacoes_adicionais.py:126 | records with the same key set give the same sorted key order |
| `FetchInfo.Probe` | informacoes-adicionais/buscar_informacoes_adicionais.py:152-156 | the probing loop computes `ProbeFrom`: concepts in order until one answers truthily |
| `FetchInfo.Flush` | informacoes-adicionais/buscar_informacoes_adicionais.py:181-183 | after the flush the tab's rows are the rows before it followed by every batch written so far |
| `FetchInfo.CutShape` | informacoes-adicionais/buscar_informacoes_adicionais.py:174-183 | the loop appends only batches of 1000 rows or more; the buffer left after the last concept holds fewer than 1000 rows; the batches followed by that buffer are all the concepts' rows in order |
| `FetchInfo.CutFlushRule` | informacoes-adicionais/buscar_informacoes_adicionais.py:178-183 | every batch the loop appends ends with one concept's rows and held fewer than 1000 rows before them: the buffer is appended as soon as it reaches 1000 rows at the end of a concept |
| `FetchInfo.BatchesOfShape` | informacoes-adicionais/buscar_informacoes_adicionais.py:174-188 | all the `append_rows` calls hold every row in order, none is empty, every one but the last has at least 1000 rows, and a final call after the loop has fewer than 1000 |
| `FetchInfo.ChunksRows` | informacoes-adicionais/buscar_informacoes_adicionais.py:174-179 | the concepts' rows one list per concept, concatenated, are the rows of all concepts; both stop at the same exception |
| `FetchInfo.AppendConcepts` | informacoes-adicionais/buscar_informacoes_adicionais.py:171-188 | the appended batches are exactly `BatchesOf` the concepts' rows, the flush rule `CutShape` and `CutFlushRule` pin down; together they are the rows of all concepts in concept order; the count is the number of rows; a concept whose rows raise stops the loop with that error, after exactly the batches the loop flushed for earlier concepts, and the buffer is never appended |
| `FetchInfo.Run` | informacoes-adicionais/buscar_informacoes_adicionais.py:133-190 | the tab is cleared and gets the six prefix names and the header keys as its first row; the appended batches are `BatchesOf` all concepts' rows, so all rows in order, and the Ok count stands for the `total` the script logs (its `run` returns nothing); a concept whose rows raise leaves only the batches flushed for earlier concepts; a header that raises leaves the tab empty |
| `FetchGroups.GroupRowShape` | informacoes-adicionais/buscar_grupo_de_informacao_adicional.py:105-118 | the row `GroupRow` builds for a record (the body of `parse_rows`' loop) has the seven `SHEET_HEADER` columns in header order; a missing or empty entity gives `modulo` `None`; a record or an entity that is not a dict raises |
| `FetchGroups.GatherRows` | informacoes-adicionais/buscar_grupo_de_informacao_adicional.py:134-140 | the loop's buffer is the rows of every concept in concept order, or the first error |
| `FetchGroups.Run` | informacoes-adicionais/buscar_grupo_de_informacao_adicional.py:123-145 | the tab is cleared and gets `SHEET_HEADER`; all rows go in one `append_rows` call, made only when there is a row; the Ok count stands for the `total` the script logs (its `run` returns nothing); on an error only the header is written |
| `Saving.WritesEveryRow` | informacoes-adicionais/salvar_informacao_adicional.py:183-191 | the message of record `i` is written to row `i + 2` of the result column unless that write raises |
| `Saving.WritesOnlyRows` | informacoes-adicionais/salvar_grupo_informacao_adicional.py:111-136 | every cell written is the message of some record `i`, in row `i + 2` |
| `Saving.WritesInOrder` | informacoes-adicionais/salvar_grupo_informacao_adicional.py:111-136 | the cells are written in increasing row order, within rows 2 to `n + 1` |
| `Saving.SendAll` | informacoes-adicionais/salvar_informacao_adicional.py:183-193 | a failed write does not stop the loop, and every record's message is written; a payload that raises stops the loop with that error, after the writes of the records before it |
| `Saving.WriteRecord` | informacoes-adicionais/salvar_informacao_adicional.py:184-191 | one record is posted and its message written to row `i + 2` unless the write raises |
| `Saving.WritesStep` | informacoes-adicionais/salvar_informacao_adicional.py:183-191 | one more record adds at most its own write after the earlier ones |
| `SaveInfo.SafeStr` | informacoes-adicionais/salvar_informacao_adicional.py:98-107 | `None` gives the empty text, and the result never holds a `.` |
| `SaveInfo.PadDecimal` | informacoes-adicionais/salvar_informacao_adicional.py:103-106 | padding adds no `.` |
| `SaveInfo.SafeStrPadding` | informacoes-adicionais/salvar_informacao_adicional.py:102-107 | dots become commas; a `0` is added exactly when the text has one comma with one character after it; stripping comes last |
| `SaveInfo.ParseTipoReads` | informacoes-adicionais/salvar_informacao_adicional.py:111 | `ParseTipo`, the reading of `Tipo`: a cell holding `str(i)` reads as `i`, and a missing or empty cell as 0; it fails exactly when the cell is neither empty nor an integer literal |
| `SaveInfo.ExtraHasItsKeys` | informacoes-adicionais/salvar_informacao_adicional.py:135-163 | the keys each `tipo` adds are exactly the ones listed for it, and none for another `tipo` |
| `SaveInfo.PayloadContents` | informacoes-adicionais/salvar_informacao_adicional.py:110-165 | the payload `BuildPayload` (`montar_payload`) gives exists exactly when `Tipo` parses; its keys are the base keys plus that `tipo`'s keys, with `Status`, `Cadastro_InserindoNovoRegistro`, `identificadorDaAba` and `Tipo` fixed; `Codigo` equals `_TxtCodigo`; `Obrigatorio` is capitalised and `InserirValorPadraoEmRegistrosAtivos` lower-cased; `Mascara`, when present, goes through `safe_str` |
| `SaveInfo.MascaraField` | informacoes-adicionais/salvar_informacao_adicional.py:136-149 | after `base.update`, a `Mascara` field is the normalised mask |
| `SaveInfo.ExtraMascara` | informacoes-adicionais/salvar_informacao_adicional.py:135-149 | only `tipo` 0 and 2 send `Mascara`, and it is `safe_str` of the cell |
| `SaveInfo.MascaraKinds` | informacoes-adicionais/salvar_informacao_adicional.py:135-163 | `Mascara` is among the added keys exactly for `tipo` 0 and 2 |
| `SaveInfo.BaseExtraDisjoint` | informacoes-adicionais/salvar_informacao_adicional.py:113-163 | `base.update` never overwrites a base key |
| `SaveInfo.BaseHasItsKeys` | informacoes-adicionais/salvar_informacao_adicional.py:113-132 | the base dict has exactly the 18 base keys |
| `SaveInfo.BaseFixedValues` | informacoes-adicionais/salvar_informacao_adicional.py:116-130 | `Status` is `ATIVO`, `Cadastro_InserindoNovoRegistro` is `True`, `identificadorDaAba` is the argument, and `Tipo` is the parsed integer |
| `SaveInfo.BaseRowValues` | informacoes-adicionais/salvar_informacao_adicional.py:122-128 | `Codigo` and `_TxtCodigo` are the row's code; `Obrigatorio` is capitalised; `InserirValorPadraoEmRegistrosAtivos` is lower-cased |
| `SaveInfo.SendRecordMessages` | informacoes-adicionais/salvar_informacao_adicional.py:83-95 | the message `SendRecord` (`enviar_registro`) gives: a non-200 status gives `Erro HTTP ` and the status, which reads back; a 200 reply whose body is not JSON gives `Resposta inválida`; a dict body gives its `mensagem` or `(sem mensagem)`; another parsed body gives the `AttributeError` text; an exception gives its own text |
| `SaveInfo.Run` | informacoes-adicionais/salvar_informacao_adicional.py:171-195 | the result column exists afterwards; every row's payload is posted and its message written to row `i + 2` of that column; a `Tipo` that does not parse stops the run with that error, after the writes of the rows before it |
| `SaveGroups.FormDataFields` | informacoes-adicionais/salvar_grupo_informacao_adicional.py:117-128 | the form `FormData` (`form_data`) builds has exactly the ten keys; `Codigo` and `_TxtCodigo` are the row's `codigo`; `Cadastro_InserindoNovoRegistro` is `true`; `identificadorDaAba` is the tab's constant; module, concept and description come from the row |
| `SaveGroups.FormOfFetchedRow` | informacoes-adicionais/salvar_grupo_informacao_adicional.py:112-128 | a row the group fetch wrote gives a form whose code, module, concept and description are the cells of those columns |
| `SaveGroups.ReadBackColumns` | informacoes-adicionais/buscar_grupo_de_informacao_adicional.py:51-59 | the columns the save loop reads are columns the group fetch writes, and they read back as the fetched cells |
| `SaveGroups.ReadBackColumn` | informacoes-adicionais/buscar_grupo_de_informacao_adicional.py:51-59 | a column whose name is not repeated further right reads back as the fetched cell |
| `SaveGroups.SendRecordMessages` | informacoes-adicionais/salvar_grupo_informacao_adicional.py:65-80 | the message `SendRecord` (`enviar_registro`) gives: a non-200 status gives `Erro HTTP ` and the status, which reads back; a 200 reply whose body is not JSON gives `Resposta inválida (não-JSON)`; an exception, or a body that is not a dict, gives `Erro: ` and the exception's text; a dict body gives its `mensagem` or `(sem mensagem)` |
| `SaveGroups.Run` | informacoes-adicionais/salvar_grupo_informacao_adicional.py:98-140 | the result column exists afterwards; every record's form is posted and its message written to row `i + 2` of that column; a failed write does not stop the loop |
| `Mail.FindCodeFrom` | informacoes-adicionais/login_lg.py:75 | the leftmost six-digit word-bounded run at or after `i`, or none at or after `i` |
| `Mail.FindCode` | informacoes-adicionais/login_lg.py:75-76 | `re.search(r"\b\d{6}\b")` finds nothing exactly when no such run exists; otherwise it gives the six digits of the leftmost run |
| `Mail.FindsCodeAfterLeadIn` | informacoes-adicionais/login_lg_sem_selenium.py:78-80 | a code after text without digits, set off by non-word characters, is the code found |
| `Mail.DecodePart` | informacoes-adicionais/login_lg.py:70-76 | a code found in a part is six digits; a part without body data has none |
| `Mail.FirstPartCode` | informacoes-adicionais/login_lg.py:78-82 | the code found over the parts is six digits |
| `Mail.FirstPartCodeFinds` | informacoes-adicionais/login_lg.py:78-82 | when part `k` is the first with a code and no part before it raised, the search gives that part's code |
| `Mail.FirstPartCodeHasFirst` | informacoes-adicionais/login_lg.py:78-82 | a code found over the parts comes from a first part with a code |
| `Mail.FirstPartCodeIff` | informacoes-adicionais/login_lg_sem_selenium.py:83-87 | the parts give a code exactly when some part has one and none before it raised |
| `Mail.FirstPartCodeNone` | informacoes-adicionais/login_lg.py:78-89 | when no part has a code the result is none |
| `Mail.PayloadCode` | informacoes-adicionais/login_lg.py:78-84 | a code found in a payload is six digits |
| `Mail.ExtractCode` | informacoes-adicionais/login_lg.py:66-89 | `extrair_codigo_email` gives six digits or nothing, and an exception gives nothing |
| `Mail.PayloadPartsCode` | informacoes-adicionais/login_lg.py:78-82 | a payload with a list of parts gives a code exactly when a first part with a code exists, and it is that part's code |
| `Mail.SearchCode` | informacoes-adicionais/login_lg.py:92-111 | the newest unread portal mail is searched; no mail, or a failing mail service, gives nothing |
| `Mail.TwoFactorSpellings` | informacoes-adicionais/login_lg.py:148 | the mode check ignores case: exactly `2fa`, `2fA`, `2Fa` and `2FA` pass it |
| `Mail.FirstCodeFrom` | informacoes-adicionais/login_lg.py:155-159 | the first look at or after `k`, within the 12, that finds a code; none means no such look found one |
| `Mail.Poll` | informacoes-adicionais/login_lg_sem_selenium.py:136-146 | at most 12 looks; the poll stops at the first look with a code and gives it; there is one pause after every look without a code; no code after 12 looks gives none |
| `Web.NetlocEnd` | informacoes-adicionais/login_lg.py:176-177 | the network location ends at the first `/`, `?` or `#`, or at the end of the URL |
| `Web.UrlBaseOf` | informacoes-adicionais/login_lg.py:176-177 | `UrlBase`: the base of `scheme://host/rest` is the lower-cased scheme, `://` and the host, whatever path, query or fragment follows |
| `Web.UrlBaseIdempotent` | informacoes-adicionais/login_lg_sem_selenium.py:159-160 | the base of a base URL with a scheme is itself |
| `Web.Pieces` | informacoes-adicionais/login_lg.py:181 | one header piece per cookie |
| `Web.HeaderJoinsPieces` | informacoes-adicionais/login_lg.py:181 | the header `CookieHeader` builds is the `name=value` pieces joined by `; ` |
| `Web.CookieHeaderRoundTrip` | informacoes-adicionais/login_lg_sem_selenium.py:163 | a header of cookies without `=` or `;` in the names and without `;` in the values reads back as the cookies, in order |
| `Web.PieceReadsBack` | informacoes-adicionais/login_lg.py:181 | each piece holds no `;` and reads back as its cookie |
| `Web.Names` | informacoes-adicionais/login_lg_sem_selenium.py:163 | the jar's cookie names, in order |
| `Web.Store` | informacoes-adicionais/login_lg_sem_selenium.py:106-126 | storing a cookie with a known name keeps the jar's size; storing a new name adds one entry; this is the jar's order of setting, not the order in which it is read (`Web.ByName`) |
| `Web.StoreKeepsOnePerName` | informacoes-adicionais/login_lg_sem_selenium.py:106-126 | the jar keeps one cookie per name; the stored cookie is in it; cookies with other names stay, and nothing else is added |
| `Web.StoreAllKeeps` | informacoes-adicionais/login_lg_sem_selenium.py:126-153 | a cookie that no later response sets again stays in the jar |
| `Web.StoreAllLastWins` | informacoes-adicionais/login_lg_sem_selenium.py:126-153 | the last value a response sets for a name is the one in the jar |
| `Web.InsertByName` | informacoes-adicionais/login_lg_sem_selenium.py:163 | inserting a cookie into the name-ordered jar adds exactly that cookie |
| `Web.ByName` | informacoes-adicionais/login_lg_sem_selenium.py:163 | `for c in s.cookies` yields the jar's cookies, each once, nothing else |
| `Web.PrependAscending` | informacoes-adicionais/login_lg_sem_selenium.py:163 | a cookie whose name sorts before the first of an ascending jar can go in front |
| `Web.TailAscending` | informacoes-adicionais/login_lg_sem_selenium.py:163 | the rest of an ascending jar ascends |
| `Web.ConsAscending` | informacoes-adicionais/login_lg_sem_selenium.py:163 | a cookie whose name sorts before all the others can go in front |
| `Web.InsertByNameAscending` | informacoes-adicionais/login_lg_sem_selenium.py:163 | inserting a cookie with a new name keeps the jar in strictly ascending name order |
| `Web.ByNameAscending` | informacoes-adicionais/login_lg_sem_selenium.py:163 | a jar with one cookie per name is iterated in strictly ascending name order |
| `Web.AscendingUnique` | informacoes-adicionais/login_lg_sem_selenium.py:163 | two jars in ascending name order with the same cookies are the same list |
| `Web.ByNameIgnoresSettingOrder` | informacoes-adicionais/login_lg_sem_selenium.py:163 | the order in which cookies were set never shows in the header: jars with the same cookies, one per name, are iterated alike |
| `Web.HeaderFollowsNames` | informacoes-adicionais/login_lg_sem_selenium.py:163 | setting `b=1` then `a=2` gives the header `a=2; b=1` |
| `LoginBrowser.LoginLg` | informacoes-adicionais/login_lg.py:117-189 | without two factors the session is the browser's final page; with them the mailbox is polled 12 times at most, with a 4-second pause after each look without a code; no code raises; the first code found is typed in |
| `LoginBrowser.SessionReadsBack` | informacoes-adicionais/login_lg.py:176-189 | the returned cookies read back as the browser's cookies, and the returned URL is its own base |
| `LoginHttp.QuoteFrom` | informacoes-adicionais/login_lg_sem_selenium.py:113 | the position found holds a `"` |
| `LoginHttp.QuoteFromFirst` | informacoes-adicionais/login_lg_sem_selenium.py:113 | no `"` comes before the position found |
| `LoginHttp.QuoteFromFinds` | informacoes-adicionais/login_lg_sem_selenium.py:113 | the first `"` at or after `j` is the one found |
| `LoginHttp.TokenEnd` | informacoes-adicionais/login_lg_sem_selenium.py:113 | `[^"]+` ends before a `"`, at least one character after it starts |
| `LoginHttp.TokenFrom` | informacoes-adicionais/login_lg_sem_selenium.py:113 | a match found at or after `i` is a marker followed by a quoted token |
| `LoginHttp.TokenFromLeftmost` | informacoes-adicionais/login_lg_sem_selenium.py:113 | no match starts before the one found; none found means none exists |
| `LoginHttp.TokenFromFinds` | informacoes-adicionais/login_lg_sem_selenium.py:113 | the leftmost match is the one found |
| `LoginHttp.TokenOf` | informacoes-adicionais/login_lg_sem_selenium.py:113-115 | a token found is non-empty and holds no `"` |
| `LoginHttp.TokenOfLeftmost` | informacoes-adicionais/login_lg_sem_selenium.py:113-115 | `TokenOf`, the search `CsrfToken` runs with the field's marker: there is no token exactly when the page has no match; otherwise it is the group of the leftmost match |
| `LoginHttp.CsrfTokenOf` | informacoes-adicionais/login_lg_sem_selenium.py:112-115 | a page with the verification-token field gives that field's value |
| `LoginHttp.TokenOfPage` | informacoes-adicionais/login_lg_sem_selenium.py:113-115 | a page whose first marker is followed by a quoted token gives that token |
| `LoginHttp.TokenAfterMarker` | informacoes-adicionais/login_lg_sem_selenium.py:113 | in marker + token + `"`, a match starts at the marker and its group is the token |
| `LoginHttp.LeftmostToken` | informacoes-adicionais/login_lg_sem_selenium.py:113-115 | the group of the leftmost match is the token |
| `LoginHttp.NoMarkerInside` | informacoes-adicionais/login_lg_sem_selenium.py:113 | no match starts inside quote-free text before the marker |
| `LoginHttp.LoginFormCarriesToken` | informacoes-adicionais/login_lg_sem_selenium.py:117-123 | the form `LoginForm` builds carries the user and the password, and the token key exactly when a token was found, with that token |
| `LoginHttp.LoginFormOfPage` | informacoes-adicionais/login_lg_sem_selenium.py:112-123 | a page with a token gives the three-field form with that token |
| `LoginHttp.JarHasSecond` | informacoes-adicionais/login_lg_sem_selenium.py:106-126 | after both responses the jar has one cookie per name and holds the last value the second response set for each name |
| `LoginHttp.JarKeepsFirst` | informacoes-adicionais/login_lg_sem_selenium.py:106-126 | a cookie of the first response that the second does not set again stays in the jar |
| `LoginHttp.SessionJarByName` | informacoes-adicionais/login_lg_sem_selenium.py:163 | the cookies of the session header come in strictly ascending name order, after the login post and after the code post |
| `LoginHttp.ExecutarLogin` | informacoes-adicionais/login_lg_sem_selenium.py:100-166 | a first status other than 200 or 302 is an error naming it; without a `ValideCodigo` redirect the session is the second response's base URL and the jar's cookies, the latest value per name, joined in name order; with the redirect, a mode other than 2FA is an error; otherwise the poll runs (12 looks, 5-second pauses); no code is an error; the first code is posted to the redirect URL and that response gives the session |

## Left out

- Google Sheets access is not modelled: authorisation, `open_sheet`, and creating a missing tab. A tab is an object holding its rows.
- `Sheets.RowsAsText`: `get_all_records` in the group save script is modelled as `get_all_values` with `dict(zip(...))`. Its typing of numeric cells (`numericise`) and its duplicate-header check are not captured.
- `Sheets.Worksheet.UpdateCell`: the message written into the result column is recorded in `updates` but not copied into `body`. No rows are read after the writes.
- `Sheets.Worksheet.EnsureResultColumn`: the `row_values(1)` read is taken as the stored header. Trailing empty header cells are not trimmed as gspread trims them.
- The module-level download of the service-account credential is not modelled, and neither are the spreadsheet IDs and tab names.
- `build_session`: its constant headers, the cookie string passed in, and the timeouts are not modelled. Every POST is a call of the network parameter.
- Logging and `print` are not modelled.
- The `REQUEST_PAUSE` and `0.5 s` sleeps between rows and concepts are not modelled. Only the retry pauses and the two-factor poll pauses are returned, as lists of seconds.
- `FetchInfo.Run`: the header probe and the main loop fetch from two network parameters. A live portal may answer the same concept differently on the second query.
- `FetchInfo.Normalize`: `json.dumps` is the `dumps` parameter. Its `except` fallback to `str(v)` is not modelled. Floats are not part of the JSON model.
- `SaveInfo.ParseTipo`: the `ValueError` text pastes the cell as it is, between single quotes. `repr` may choose double quotes for a cell that holds a single quote, and it escapes backslashes, line feeds, tabs and non-printable characters; none of that is modelled.
- `SaveInfo.BuildPayload` and `SaveGroups.FormData` are modelled as maps. The key order of the posted form is not modelled. `requests` dropping form fields whose value is `None` is not modelled either.
- Text is ASCII-only: `\d`, `\b`/`\w`, `isspace`, `upper`, `lower` and `capitalize` classify ASCII characters, plus the Latin-1 spaces for `isspace`. Unicode digits, letters and case mappings are not modelled.
- Base64url and UTF-8 decoding of a mail part are the `decode` parameter. It gives nothing where the decoding raises.
- Gmail OAuth (`autenticar_gmail`) and the Gmail list and get calls are not modelled. Each look at the mailbox is the `mail` parameter: unavailable, no unread portal mail, or the newest such message.
- Playwright is not modelled: launching the browser, waiting for selectors, the timeouts, and `wait_for_timeout(6000)`. The browser is a parameter from the login page and the typed code to the final URL and cookies.
- `LoginBrowser.LoginLg`: a `#Codigo` field that never appears, and other Playwright errors, are not modelled.
- `LoginHttp.ExecutarLogin`: network exceptions from `requests` are not modelled. A response depends only on the method, the URL and the form, not on the cookies sent with it.
- Redirect handling inside `requests` is not modelled. A response is the final page, with its URL and the cookies set along the way.
- `Web.UrlBase`: only the `urlsplit` cases the scripts meet are modelled: scheme, `//`, and the netloc up to `/`, `?` or `#`. IPv6 brackets, the stripping of control characters, and the scheme cache are not.
- `Web.Store`: cookie domains, paths and expiry are not modelled. The jar holds one value per name, for a single host and path.
- `Web.ByName`: a `requests` jar is iterated sorted by domain, then path, then name. Only the name level is modelled, since the model has one host and one path.
- The credentials are parameters. The ones hard-coded in the login scripts are not part of this model.
- The `__main__` blocks and `login_lg copy.py` are not part of this model.
