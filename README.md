# Pillar 4 questionnaire analysis and upload guard, in Dafny

This project models the two pieces of logic behind the questionnaire-analysis service.

**Pillar 4 analysis (`src/utils.py`).** Each answer of a student to one of six fixed questions about AI in education gets one of three labels:
- "Vacía": the answer is missing or blank.
- "Adecuada": it contains one of the question's keywords, compared in lower case.
- "Débil": otherwise.

Each label comes with an explanation text. Over a long table with columns "ID", "Respuesta" and "Estudiante", the analysis:
1. writes a "Pregunta" column;
2. writes the label and explanation columns;
3. summarises each student as "Cumple" when all of their answers are "Adecuada", and "No cumple" otherwise;
4. left-joins that summary back onto every row.

**Upload guard (`src/validators.py`).** `validar_archivo_csv` checks an uploaded file's metadata in this order: a non-empty name, an allowed extension, and a size of at most 10 MiB.

The project has four modules:
- `Wrappers` (`wrappers.dfy`): `Option`, `Result` and a pass/fail `Outcome`.
- `Text` (`text.dfy`): the Python string operations the core uses, each with its defining property:
  - `str.isspace` and `strip`;
  - `lower`;
  - the substring test `in`;
  - `sep.join`;
  - `split` on one character;
  - `list.index`.
- `Pilar4` (`pilar4.dfy`): `PREGUNTAS_P4`, `evaluar_respuesta_p4` and `analizar_respuestas_p4`.
  - The pure parts are datatypes and functions.
  - The caller's DataFrame, which the analysis extends in place, is the class `TablaLarga`. Its columns are fields.
  - The analysis is the method `AnalizarRespuestasP4`. It is proved equal to the value-level function `Analisis`, and the row-by-row properties are proved about `Analisis`.
- `Validators` (`validators.dfy`): `MAX_FILE_SIZE`, `ALLOWED_EXTENSIONS` and `validar_archivo_csv`.
  - Raising an `HTTPException` is modelled as `Fail(HttpError(status, detail))`.
  - Returning `None` is modelled as `Pass`.

How Python and pandas values are represented:
- A missing answer (NaN) is `None`, and a present answer is `Some(text)`.
- An "ID" is an unbounded `int`. A student name is a string.
- The `ValueError` raised by `PREGUNTAS_P4.index` is `Err(NoEstaEnLista(pregunta))`.

## Model

| member | source | states |
|---|---|---|
| Pilar4.PreguntasDistintas | src/utils.py:4-11 | The six questions are pairwise different, and "Pregunta desconocida" is none of them. |
| Pilar4.IndiceDePregunta | src/utils.py:28 | `PREGUNTAS_P4.index` finds question `i` at position `i`. |
| Pilar4.Claves | src/utils.py:29 | The keyword list of question index 0 to 5, and the empty list for any other index, as `get(indice, [])` gives. No ensures of its own; `ClavesLimpias` and `ClavesEnMinusculas` are about it. |
| Pilar4.AnalisisVacia | src/utils.py:36-48 | A table with no rows gives an empty result. pandas does the same: its row-wise apply on no rows yields an empty series, the group-by gives no groups and the merge no rows. |
| Pilar4.ClavesEnMinusculas | src/utils.py:19-26 | Every keyword is already lower case, so lower-casing the answer is what makes the comparison case-insensitive. |
| Pilar4.ClavesLimpias | src/utils.py:19-26 | No keyword holds an upper-case letter or a comma. |
| Pilar4.VaciaIff | src/utils.py:14 | A present answer counts as empty exactly when every character is whitespace. |
| Pilar4.EvaluarVacia | src/utils.py:14-15 | A missing or all-whitespace answer yields ("Vacía", fixed message) for every question, including an unknown one. The empty check comes before the lookup. |
| Pilar4.EvaluarPreguntaAjena | src/utils.py:28 | For a non-empty answer, the result is an error exactly when the question is not one of `PREGUNTAS_P4`. |
| Pilar4.EvaluarRespuesta | src/utils.py:13-34 | An error is always the lookup failure for the given question. A "Débil" label always carries the fixed "Débil" message. |
| Pilar4.EvaluarAdecuadaIff | src/utils.py:17-34 | For a non-empty answer to question `i`, the result is a value. It is "Adecuada" iff some keyword of that question is a substring of the lower-cased answer. Otherwise it is exactly ("Débil", fixed message), so the label is one of three. |
| Pilar4.EvaluarAdecuadaExplicacion | src/utils.py:31-32 | When a keyword matches, the explanation is the fixed prefix, then the matched keywords joined by ", ", then ".". |
| Pilar4.ExplicacionListaCoincidencias | src/utils.py:32 | Reading an "Adecuada" explanation back gives a non-empty list. That list is exactly the keywords found in the lower-cased answer, in keyword-list order. |
| Pilar4.LeerExplicacion | src/utils.py:32 | A non-empty list of comma-free keywords written into the "Adecuada" explanation reads back as that list. |
| Pilar4.EvaluarIgnoraMayusculas | src/utils.py:14-17 | Lower-casing an answer beforehand never changes its evaluation. |
| Pilar4.AlgunaCoincide | src/utils.py:31 | `any(palabra in respuesta ...)` holds iff some keyword of the list is a substring of the text. |
| Pilar4.Coincidencias | src/utils.py:32 | The list comprehension holds exactly the keywords that occur in the text. It keeps their order in the keyword list, so its length is at most that list's. |
| Pilar4.AlgunaCoincideIffCoincidencias | src/utils.py:31-32 | `any(...)` holds exactly when the comprehension is non-empty. |
| Pilar4.PreguntaDeIdIndice | src/utils.py:37 | An "ID" x in 1..6 maps to a question that the lookup finds at x-1. Any other "ID" maps to a text that the lookup rejects. |
| Pilar4.EvaluarFila | src/utils.py:28-37 | A row fails exactly when its answer is non-empty and its "ID" is outside 1..6. |
| Pilar4.ColumnaPregunta | src/utils.py:37 | The "Pregunta" column has one cell per row. A cell is one of the six questions iff its "ID" is in 1..6. |
| Pilar4.Recoger | src/utils.py:39 | The row-wise `apply` succeeds iff every row succeeds, and then holds every row's value in order. Otherwise it stops with the error of the first row that raises. |
| Pilar4.Evaluaciones | src/utils.py:39 | The evaluation column succeeds iff every row's `evaluar_respuesta_p4` does. Then it has one entry per row, equal to that row's result. |
| Pilar4.TextosEvaluacion | src/utils.py:13-44 | The three label strings are pairwise different, so a label reads "Adecuada" exactly when it is `Adecuada`. |
| Pilar4.ClasificacionTexto | src/utils.py:44 | On the label strings: a student reads "Cumple" exactly when each of their rows reads "Adecuada", and "No cumple" otherwise. |
| Pilar4.TodasAdecuadas | src/utils.py:44 | The all-reduction holds iff every row of the student is "Adecuada". |
| Pilar4.Distintos | src/utils.py:43 | The group keys are exactly the distinct student names, each once. |
| Pilar4.Resumen | src/utils.py:43-45 | The summary has exactly one row per student of the table: no two rows share a student, every student of the table has a row, and every row belongs to a student of the table. Each row's label is "Cumple" iff all of that student's rows are "Adecuada". |
| Pilar4.CoincidenteUnico | src/utils.py:47 | In a summary with unique keys, a present student matches exactly their own row. |
| Pilar4.AusenteSinCoincidentes | src/utils.py:47 | A student absent from the summary matches no summary row. |
| Pilar4.ResumenCoincide | src/utils.py:43-47 | Under the merge, every student of the table matches exactly one summary row: their own label. |
| Pilar4.MergeLeftUnico | src/utils.py:47 | When every row matches exactly one summary row, the left merge neither drops nor duplicates rows. Output row `i` is input row `i` with that label. |
| Pilar4.MergeLeftResumen | src/utils.py:43-47 | Merging the evaluated rows with their own summary keeps the number of rows and each row in its place. |
| Pilar4.AnalisisFallaIff | src/utils.py:36-48 | The analysis raises iff some row has a non-empty answer and an "ID" outside 1..6. |
| Pilar4.EvaluarTablaFilas | src/utils.py:37-41 | After a successful evaluation, row `i` carries its own "Pregunta" and its own `evaluar_respuesta_p4` result. |
| Pilar4.TodasAdecuadasCumple | src/utils.py:39-44 | The reduction over the evaluated rows of a student agrees with "every row of that student evaluates to Adecuada". |
| Pilar4.AnalisisFilas | src/utils.py:36-48 | A successful analysis returns the input rows in order, each exactly once. Each row is extended with its "Pregunta", its (label, explanation) pair and its student's label: "Cumple" iff every row of that student is "Adecuada", else "No cumple". |
| Pilar4.MismoEstudianteMismaClasificacion | src/utils.py:43-47 | All rows of one student carry the same "Clasificación General". |
| Pilar4.AnadirPregunta | src/utils.py:37 | Writes the "Pregunta" column into the caller's table. No other column changes. |
| Pilar4.AnadirDictamenes | src/utils.py:40-41 | Writes the label and explanation columns, cell by cell. No other column changes. |
| Pilar4.AnalizarRespuestasP4 | src/utils.py:36-48 | The rows returned equal `Analisis` of the table's rows. The "Pregunta" column is always written. On error, the other two columns are unchanged. On success, they hold each row's label and explanation. The input columns are unchanged. |
| Pilar4.TablaLarga.constructor | src/utils.py:36 | A table with the given rows and none of the added columns. |
| Text.StripLeft | src/utils.py:14 | `lstrip()` drops only whitespace, and the result does not start with whitespace. |
| Text.StripRight | src/utils.py:14 | `rstrip()` drops only whitespace, and the result does not end with whitespace. |
| Text.IsSpace | src/utils.py:14 | Lists exactly the characters for which Python's `str.isspace` holds, which are the characters `strip()` removes. No ensures of its own; `StripLeft`, `StripRight` and `StripEmptyIff` are stated over it. |
| Text.StripEmptyIff | src/utils.py:14 | `strip()` is empty iff the string is all whitespace. |
| Text.LowerChar | src/utils.py:17 | A lowered character is never upper case, and a non-upper-case character is unchanged. |
| Text.LowerFacts | src/utils.py:17 | `lower()` keeps the length, gives a string with no upper-case letter, and fixes a string that has none. |
| Text.LowerIdempotent | src/utils.py:17 | Lowering twice is lowering once. |
| Text.LowerKeepsCaseless | src/validators.py:23 | A character that is neither upper case nor the lowering of an upper-case letter, such as ".", occurs in the lowered string exactly where it occurs in the original. |
| Text.LowerKeepsSpace | src/utils.py:14-17 | Lowering neither creates nor removes whitespace. |
| Text.Contains | src/utils.py:31-32 | `needle in hay` holds iff the needle occurs at some offset of the text. |
| Text.Split | src/validators.py:23 | `split(d)` always gives at least one piece, and no piece holds `d`. |
| Text.SplitSingle | src/validators.py:23 | `split(d)` gives one piece exactly when `d` does not occur. |
| Text.JoinSplit | src/validators.py:23 | Joining the pieces of `split(d)` with `d` gives back the string. |
| Text.SplitJoin | src/utils.py:32 | Splitting a `d`-joined list whose items are `d`-free gives back the items, each after the first prefixed by the separator's tail. |
| Text.ReadCommaListJoin | src/utils.py:32 | `", ".join(xs)` of a non-empty list of comma-free items reads back as `xs`. |
| Text.ReadCommaListBetweenJoin | src/utils.py:32 | The same round trip holds with a fixed prefix and a final character around the joined list. |
| Text.IndexOf | src/utils.py:28 | `list.index` fails iff the value is absent. Otherwise it gives the first position holding the value. |
| Validators.LastPiece | src/validators.py:23 | The last piece of `split(d)` is the longest `d`-free suffix: either the whole string or preceded by `d`. |
| Validators.ExtensionIsLastSegment | src/validators.py:23 | The extension is "." followed by the longest dot-free suffix of the lower-cased name. A name without a dot is entirely that suffix. |
| Validators.NoNameRejectedFirst | src/validators.py:19-20 | A missing or empty name gets 400 "No se ha subido ningún archivo", whatever the size. |
| Validators.AcceptedIff | src/validators.py:10-35 | Accepted iff all three hold: the name is non-empty; the lower-cased last segment after "." is "csv", "xlsx" or "xls"; the size is unknown, zero or at most 10485760. |
| Validators.CaseInsensitive | src/validators.py:23-24 | The verdict does not depend on the case of the name. |
| Validators.SizeBoundary | src/validators.py:10-35 | With an allowed name, sizes of exactly 10 MiB, 0 and unknown pass. One byte over 10 MiB gets 400 "Archivo demasiado grande. Máximo permitido: 10.0MB". |
| Validators.ExtensionBeforeSize | src/validators.py:22-35 | An oversized file with a bad extension gets the format error, not the size error. |
| Validators.ExampleNoDot | src/validators.py:23 | "CSV", a name with no dot, passes: the whole name is its extension. |
| Validators.ExampleTrailingDot | src/validators.py:23-28 | "data." is refused with "Formato no permitido. Use: .csv, .xlsx, .xls". |
| Validators.ExampleUpperExtension | src/validators.py:23-24 | "Notas.XLSX" passes, because the extension is lower-cased. |
| Pilar4.EsVacia | src/utils.py:14 | An answer is empty when it is missing or only whitespace. No ensures of its own; see `VaciaIff` and `EvaluarVacia`. |
| Pilar4.PreguntaDeId | src/utils.py:37 | Maps a row's ID to its question text, or to the unknown-question marker. No ensures of its own; see `PreguntaDeIdIndice`, `EvaluarFila` and `ColumnaPregunta`. |
| Pilar4.ClasificacionDe | src/utils.py:44 | A student meets pillar 4 when every one of their rows is rated adequate. No ensures of its own; see `TodasAdecuadas`, `ClasificacionTexto` and `Resumen`. |
| Pilar4.MergeLeft | src/utils.py:47 | The left merge on the student column: each row appears once per matching summary row, or once with no label. No ensures of its own; see `MergeLeftUnico`, `MergeLeftResumen`, `CoincidenteUnico` and `AusenteSinCoincidentes`. |
| Pilar4.EvaluarTabla | src/utils.py:37-41 | Adds the question column and evaluates each row. No ensures of its own; see `EvaluarTablaFilas` and `TodasAdecuadasCumple`. |
| Pilar4.Analisis | src/utils.py:36-48 | The whole analysis, computed on the rows as a value. No ensures of its own; see `AnalisisFallaIff`, `AnalisisFilas`, `MismoEstudianteMismaClasificacion` and `AnalizarRespuestasP4`. |
| Text.Strip | src/utils.py:14 | Removes leading and trailing whitespace. No ensures of its own; see `StripLeft`, `StripRight` and `StripEmptyIff`. |
| Text.Lower | src/utils.py:17 | Lower-cases a string one character at a time. No ensures of its own; see `LowerChar`, `LowerFacts`, `LowerIdempotent`, `LowerKeepsSpace` and `LowerKeepsCaseless`. |
| Text.Join | src/utils.py:32 | Joins the items with a separator between each pair. No ensures of its own; see `JoinSplit`, `SplitJoin` and `ReadCommaListJoin`. |
| Text.ReadCommaList | src/utils.py:32 | Reads a ", "-separated list back into its items, as the inverse of line 32's join. No ensures of its own; see `ReadCommaListJoin` and `ReadCommaListBetweenJoin`. |
| Validators.Extension | src/validators.py:23 | A dot followed by the last dot-separated piece of the lower-cased name. No ensures of its own; see `ExtensionIsLastSegment` and `LastPiece`. |
| Validators.TooLarge | src/validators.py:31 | A size is too large when it is present, non-zero and above the limit. No ensures of its own; see `SizeBoundary` and `AcceptedIff`. |
| Validators.ValidarArchivoCsv | src/validators.py:15-37 | Checks the name, then the extension, then the size. No ensures of its own; see `AcceptedIff`, `NoNameRejectedFirst`, `ExtensionBeforeSize`, `SizeBoundary`, `CaseInsensitive` and the three examples. |

## Left out

- `src/main.py` is not part of this model. It holds the web application, the request handling, the asynchronous file reading and the parsing of the upload into a DataFrame, all of which are I/O. It also imports a Pillar 5 analysis that `src/utils.py` does not define.
- `src/config.py` is not part of this model. Its column tables, scoring criteria and weights are not read by the modelled functions, and its configuration check reads the file system.
- `detectar_formato_archivo` (src/validators.py:39-76) is left out. It delegates to the pandas CSV and Excel readers and retries encodings, which is library I/O.
- `validar_contenido_dataframe` (src/validators.py:78) is left out because its definition is cut off after line 78.
- `MIN_ROWS` and `MAX_ROWS` (src/validators.py:12-13) are left out, because only `validar_contenido_dataframe` could use them.
- Logging (src/validators.py:7,37) has no effect on results and is not modelled.
- Text.Lower: covers ASCII A-Z and the Latin-1 capitals U+00C0-U+00DE except U+00D7. Each maps to the character 32 positions above. The other cased letters of Unicode are not modelled. The lemmas rely on this concrete table. It lowers each character on its own and keeps the length. It never produces whitespace or ".". It is idempotent, and it fixes every keyword. Python's `lower` differs in two ways. U+0130 lowers to two characters, the only multi-character lowering, so the length changes. U+03A3 (capital sigma) lowers to U+03C2 or U+03C3 depending on the letters around it (the Unicode Final_Sigma rule), so only that letter does not lower on its own.
- Text.IsSpace lists the characters for which Python's `str.isspace` is true. Unicode database changes beyond that list are not modelled.
- `pd.isna` is modelled only for a missing answer. A present answer is always a string, so numeric answers converted by `str(...)` are not modelled.
- The "ID" column is a Python `int`. Floating-point or NaN IDs are not modelled.
- Student names are always present. pandas `groupby` drops NaN keys, and that case is not modelled.
- Pilar4.Resumen: lists students in order of first appearance, whereas pandas sorts the groups by name. The left merge keeps the order of the long table, so this order never reaches the output rows. It is the only difference, and it is left out on purpose.
- Pilar4.AnalizarRespuestasP4: the merged rows are returned as a new value, as pandas `merge` returns a new frame. Aliasing between the returned frame and the caller's table is not modelled.
- Only the three input columns and the three columns that the analysis adds ("Pregunta", "Evaluación Pilar 4" and "Explicación") are fields of the table. Other columns of the caller's DataFrame are not represented.
- Pilar4.Analisis: an input that already has a "Clasificación General" column (for example a re-uploaded result) is not modelled. In pandas, the merge at src/utils.py:47 would then rename both copies to "Clasificación General_x" and "Clasificación General_y", so the output would have no "Clasificación General" column.
- Validators.ValidarArchivoCsv: the `hasattr(file, 'size')` test is folded into the optional size. A missing attribute and a `None` size are both `None`.
- The whole program is sequential. Concurrency in the web layer is out of scope.
- `src/utils.py` classifies answers by the keyword rule alone. It has no SMART criteria, evidence categories or weighted scores, so there are none to model.
