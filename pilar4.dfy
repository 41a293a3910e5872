/**
 Pillar 4 of the questionnaire: each answer of a student to one of six fixed questions is
 classified by keyword containment, and each student is then summarised as meeting the pillar
 only when every one of their answers is adequate.
 */
module Pilar4 {
  import opened Wrappers
  import opened Text

  // ---------------------------------------------------------------------------
  // Reference data
  // ---------------------------------------------------------------------------

  /** The six Pillar 4 questions, in order (`PREGUNTAS_P4`). */
  const Preguntas: seq<string> := [
    "¿Por qué considera necesario incorporar IA en el ámbito educativo?",
    "¿Qué ventajas puede ofrecer la IA en los procesos de enseñanza y aprendizaje?",
    "¿Qué riesgos y desafíos puede implicar el uso de IA en educación?",
    "¿Qué estrategias propondría para promover un uso responsable y ético de la IA en su institución?",
    "¿Qué aspectos considera importantes profundizar para fortalecer su comprensión sobre la IA?",
    "¿Cómo espera que el aprendizaje sobre IA impacte en su práctica profesional?"
  ]

  /** The question text given to an `ID` outside 1..6. */
  const PreguntaDesconocida: string := "Pregunta desconocida"

  /** The keyword list of each question, by the question's position in `Preguntas`. */
  const ClavesPregunta: seq<seq<string>> := [
    ["necesario", "importante", "relevante", "incorporar", "fundamental"],
    ["ventaja", "mejorar", "beneficio", "oportunidad", "fortalecer"],
    ["riesgo", "desafío", "problema", "peligro", "preocupación"],
    ["estrategia", "ética", "responsable", "lineamiento", "norma"],
    ["profundizar", "aprender", "conocer más", "formación", "capacitación"],
    ["impacto", "cambio", "mejorar", "transformar", "aplicar"]
  ]

  /** `claves_pregunta.get(indice, [])`. */
  function Claves(indice: nat): seq<string> {
    if indice < |ClavesPregunta| then ClavesPregunta[indice] else []
  }

  const MensajeVacia: string := "La respuesta está vacía o no se ha completado."
  const MensajeDebil: string := "La respuesta no desarrolla adecuadamente los aspectos esperados para esta pregunta."
  const PrefijoAdecuada: string := "La respuesta incluye términos relevantes como: "
  const SeparadorClaves: string := ", "

  /** No two questions share a text, and none is the placeholder for an unknown `ID`. */
  lemma PreguntasDistintas()
    ensures forall i, j :: 0 <= i < j < |Preguntas| ==> Preguntas[i] != Preguntas[j]
    ensures PreguntaDesconocida !in Preguntas
  {
    assert forall i, j :: 0 <= i < j < |Preguntas| ==> |Preguntas[i]| != |Preguntas[j]|;
    assert forall i :: 0 <= i < |Preguntas| ==> |Preguntas[i]| != |PreguntaDesconocida|;
  }

  /** A keyword without upper-case letters (so `lower()` fixes it) and without commas. */
  predicate ClaveLimpia(k: string) {
    forall j :: 0 <= j < |k| ==> !IsUpper(k[j]) && k[j] != ','
  }

  /** Every keyword of every question is lower case and holds no comma. */
  lemma ClavesLimpias()
    ensures forall i: nat, k :: k in Claves(i) ==> ClaveLimpia(k)
  {
    ClavesLimpias0(); ClavesLimpias1(); ClavesLimpias2(); ClavesLimpias3(); ClavesLimpias4(); ClavesLimpias5();
  }

  /** `lower()` leaves every keyword as it is. */
  lemma ClavesEnMinusculas(i: nat, k: string)
    requires k in Claves(i)
    ensures Lower(k) == k
  {
    ClavesLimpias();
    assert ClaveLimpia(k);
    assert IsLowerCase(k);
    LowerFacts(k);
  }

  lemma ClavesLimpias0()
    ensures forall k :: k in ClavesPregunta[0] ==> ClaveLimpia(k)
  {
  }

  lemma ClavesLimpias1()
    ensures forall k :: k in ClavesPregunta[1] ==> ClaveLimpia(k)
  {
  }

  lemma ClavesLimpias2()
    ensures forall k :: k in ClavesPregunta[2] ==> ClaveLimpia(k)
  {
  }

  lemma ClavesLimpias3()
    ensures forall k :: k in ClavesPregunta[3] ==> ClaveLimpia(k)
  {
  }

  lemma ClavesLimpias4()
    ensures forall k :: k in ClavesPregunta[4] ==> ClaveLimpia(k)
  {
  }

  lemma ClavesLimpias5()
    ensures forall k :: k in ClavesPregunta[5] ==> ClaveLimpia(k)
  {
  }

  // ---------------------------------------------------------------------------
  // Per-answer classification (evaluar_respuesta_p4)
  // ---------------------------------------------------------------------------

  /** The per-answer label, column "Evaluación Pilar 4". */
  datatype Evaluacion = Vacia | Adecuada | Debil {
    function Texto(): string {
      match this
      case Vacia => "Vacía"
      case Adecuada => "Adecuada"
      case Debil => "Débil"
    }
  }

  /**
   The label strings are pairwise different, so line 44's comparison of the column against
   "Adecuada" holds exactly for the label `Adecuada`.
   */
  lemma TextosEvaluacion(a: Evaluacion, b: Evaluacion)
    ensures a.Texto() == "Adecuada" <==> a == Adecuada
    ensures a.Texto() == b.Texto() <==> a == b
  {
    assert "Vacía"[0] != "Adecuada"[0] && "Débil"[0] != "Adecuada"[0] && "Vacía"[0] != "Débil"[0];
  }

  /** The pair returned for one answer: its label and the explanation ("Explicación"). */
  datatype Dictamen = Dictamen(evaluacion: Evaluacion, explicacion: string)

  /** The ValueError raised by `PREGUNTAS_P4.index(pregunta)` for a text not in the list. */
  datatype Error = NoEstaEnLista(pregunta: string)

  /** `pd.isna(respuesta) or not str(respuesta).strip()`. */
  predicate EsVacia(respuesta: Option<string>) {
    respuesta.None? || Strip(respuesta.value) == ""
  }

  /** A present answer is empty exactly when it is nothing but whitespace. */
  lemma VaciaIff(s: string)
    ensures EsVacia(Some(s)) <==> AllSpace(s)
  {
    StripEmptyIff(s);
  }

  /** Some keyword of `claves` occurs in `texto`. */
  ghost predicate AlgunaClaveEn(claves: seq<string>, texto: string) {
    exists k :: k in claves && IsSubstring(k, texto)
  }

  /** `any(palabra in respuesta for palabra in claves)`. */
  function AlgunaCoincide(claves: seq<string>, texto: string): (b: bool)
    ensures b <==> AlgunaClaveEn(claves, texto)
  {
    if |claves| == 0 then false
    else if Contains(texto, claves[0]) then true
    else
      var b := AlgunaCoincide(claves[1..], texto);
      assert claves == [claves[0]] + claves[1..];
      b
  }

  /** `[p for p in claves if p in respuesta]`: the keywords found, in keyword-list order. */
  function Coincidencias(claves: seq<string>, texto: string): (m: seq<string>)
    ensures forall k :: k in m <==> k in claves && IsSubstring(k, texto)
    ensures IsSubsequence(m, claves)
    ensures |m| <= |claves|
  {
    if |claves| == 0 then []
    else
      var rest := Coincidencias(claves[1..], texto);
      assert claves == [claves[0]] + claves[1..];
      if Contains(texto, claves[0]) then
        assert ([claves[0]] + rest)[1..] == rest;
        [claves[0]] + rest
      else
        rest
  }

  /** Some keyword matches exactly when the list of matches is not empty. */
  lemma AlgunaCoincideIffCoincidencias(claves: seq<string>, texto: string)
    ensures AlgunaCoincide(claves, texto) <==> |Coincidencias(claves, texto)| > 0
  {
    var m := Coincidencias(claves, texto);
    if |m| > 0 {
      assert m[0] in m;
    }
  }

  /** `evaluar_respuesta_p4(respuesta, pregunta)`. */
  function EvaluarRespuesta(respuesta: Option<string>, pregunta: string): (r: Result<Dictamen, Error>)
    ensures r.Err? ==> r.error == NoEstaEnLista(pregunta)
    ensures r.Ok? && r.value.evaluacion == Debil ==> r.value.explicacion == MensajeDebil
  {
    if EsVacia(respuesta) then Ok(Dictamen(Vacia, MensajeVacia))
    else
      var texto := Lower(respuesta.value);
      match IndexOf(Preguntas, pregunta)
      case None => Err(NoEstaEnLista(pregunta))
      case Some(indice) =>
        var claves := Claves(indice);
        if AlgunaCoincide(claves, texto) then
          Ok(Dictamen(Adecuada, PrefijoAdecuada + Join(Coincidencias(claves, texto), SeparadorClaves) + "."))
        else
          Ok(Dictamen(Debil, MensajeDebil))
  }

  /** An empty answer is "Vacía" with the fixed message, whatever the question, even an unknown one. */
  lemma EvaluarVacia(respuesta: Option<string>, pregunta: string)
    requires respuesta.None? || AllSpace(respuesta.value)
    ensures EvaluarRespuesta(respuesta, pregunta) == Ok(Dictamen(Vacia, MensajeVacia))
  {
    if respuesta.Some? {
      VaciaIff(respuesta.value);
    }
  }

  /** A non-empty answer to a question outside `Preguntas` raises the ValueError of `list.index`. */
  lemma EvaluarPreguntaAjena(respuesta: Option<string>, pregunta: string)
    ensures !EsVacia(respuesta) ==> (EvaluarRespuesta(respuesta, pregunta).Err? <==> pregunta !in Preguntas)
  {
  }

  /**
   A non-empty answer to question `i` is "Adecuada" exactly when a keyword of that question occurs
   in the lower-cased answer; otherwise it is exactly ("Débil", fixed message).
   */
  lemma EvaluarAdecuadaIff(respuesta: string, i: nat)
    requires !EsVacia(Some(respuesta)) && i < |Preguntas|
    ensures EvaluarRespuesta(Some(respuesta), Preguntas[i]).Ok?
    ensures var d := EvaluarRespuesta(Some(respuesta), Preguntas[i]).value;
      (d.evaluacion == Adecuada <==> AlgunaClaveEn(Claves(i), Lower(respuesta)))
      && (d.evaluacion != Adecuada ==> d == Dictamen(Debil, MensajeDebil))
  {
    IndiceDePregunta(i);
  }

  /** `PREGUNTAS_P4.index` finds every question at its own position. */
  lemma IndiceDePregunta(i: nat)
    requires i < |Preguntas|
    ensures IndexOf(Preguntas, Preguntas[i]) == Some(i)
  {
    PreguntasDistintas();
    assert Preguntas[i] in Preguntas;
  }

  /** The classification does not depend on the case of the answer. */
  lemma EvaluarIgnoraMayusculas(respuesta: string, pregunta: string)
    ensures EvaluarRespuesta(Some(Lower(respuesta)), pregunta) == EvaluarRespuesta(Some(respuesta), pregunta)
  {
    LowerIdempotent(respuesta);
    LowerKeepsSpace(respuesta);
    VaciaIff(respuesta);
    VaciaIff(Lower(respuesta));
    assert EsVacia(Some(Lower(respuesta))) == EsVacia(Some(respuesta));
  }

  /** Reads the keyword list back out of an "Adecuada" explanation. */
  function ClavesDeExplicacion(explicacion: string): seq<string> {
    ReadCommaListBetween(explicacion, |PrefijoAdecuada|)
  }

  /** Writing a non-empty comma-free keyword list into the explanation and reading it back gives the list. */
  lemma LeerExplicacion(m: seq<string>)
    requires |m| > 0 && forall j :: 0 <= j < |m| ==> ',' !in m[j]
    ensures ClavesDeExplicacion(PrefijoAdecuada + Join(m, SeparadorClaves) + ".") == m
  {
    assert "." == ['.'];
    ReadCommaListBetweenJoin(PrefijoAdecuada, m, '.');
  }

  /**
   The explanation of an "Adecuada" answer lists exactly the matched keywords, in keyword-list
   order: reading the text between the fixed prefix and the final "." back as a ", "-separated list
   gives the non-empty list of keywords of question `i` that occur in the lower-cased answer.
   */
  lemma ExplicacionListaCoincidencias(respuesta: string, i: nat)
    requires !EsVacia(Some(respuesta)) && i < |Preguntas|
    requires EvaluarRespuesta(Some(respuesta), Preguntas[i]).Ok?
    requires EvaluarRespuesta(Some(respuesta), Preguntas[i]).value.evaluacion == Adecuada
    ensures var d := EvaluarRespuesta(Some(respuesta), Preguntas[i]).value;
      var m := ClavesDeExplicacion(d.explicacion);
      |m| > 0 && m == Coincidencias(Claves(i), Lower(respuesta))
  {
    var texto := Lower(respuesta);
    var m := Coincidencias(Claves(i), texto);
    EvaluarAdecuadaIff(respuesta, i);
    EvaluarAdecuadaExplicacion(respuesta, i);
    AlgunaCoincideIffCoincidencias(Claves(i), texto);
    ClavesLimpias();
    forall j | 0 <= j < |m| ensures ',' !in m[j] {
      assert m[j] in m;
      assert ClaveLimpia(m[j]);
    }
    LeerExplicacion(m);
  }

  /** The explanation of a non-empty answer to question `i` in which some keyword occurs. */
  lemma EvaluarAdecuadaExplicacion(respuesta: string, i: nat)
    requires !EsVacia(Some(respuesta)) && i < |Preguntas| && AlgunaCoincide(Claves(i), Lower(respuesta))
    ensures EvaluarRespuesta(Some(respuesta), Preguntas[i])
      == Ok(Dictamen(Adecuada, PrefijoAdecuada + Join(Coincidencias(Claves(i), Lower(respuesta)), SeparadorClaves) + "."))
  {
    IndiceDePregunta(i);
  }

  // ---------------------------------------------------------------------------
  // The long table (analizar_respuestas_p4)
  // ---------------------------------------------------------------------------

  /** One row of the long table: columns "ID", "Respuesta" and "Estudiante". */
  datatype Fila = Fila(id: int, respuesta: Option<string>, estudiante: string)

  /** A row with the "Pregunta" text and the (label, explanation) pair it was given. */
  datatype FilaEvaluada = FilaEvaluada(fila: Fila, pregunta: string, dictamen: Dictamen)

  /** The per-student label, column "Clasificación General". */
  datatype Clasificacion = Cumple | NoCumple {
    function Texto(): string {
      match this
      case Cumple => "Cumple"
      case NoCumple => "No cumple"
    }
  }

  /** One row of the per-student summary. */
  datatype FilaResumen = FilaResumen(estudiante: string, clasificacion: Clasificacion)

  /** An output row: an evaluated row and the summary label the left merge attached (None when unmatched). */
  datatype FilaFinal = FilaFinal(evaluada: FilaEvaluada, clasificacion: Option<Clasificacion>)

  /** The "Pregunta" of one "ID": `PREGUNTAS_P4[x - 1]` for 0 < x <= 6, the placeholder otherwise. */
  function PreguntaDeId(x: int): string {
    if 0 < x <= |Preguntas| then Preguntas[x - 1] else PreguntaDesconocida
  }

  /**
   Looking the mapped question up again finds position `x - 1` for an "ID" in 1..6 and fails for
   every other "ID".
   */
  lemma PreguntaDeIdIndice(x: int)
    ensures IndexOf(Preguntas, PreguntaDeId(x)) == if 0 < x <= |Preguntas| then Some(x - 1) else None
  {
    PreguntasDistintas();
    if 0 < x <= |Preguntas| {
      IndiceDePregunta(x - 1);
    }
  }

  /** An answer in row `f` can be evaluated unless it is non-empty and its "ID" is outside 1..6. */
  lemma EvaluarFila(f: Fila)
    ensures EvaluarRespuesta(f.respuesta, PreguntaDeId(f.id)).Err? <==> !EsVacia(f.respuesta) && !(0 < f.id <= |Preguntas|)
  {
    PreguntasDistintas();
    if 0 < f.id <= |Preguntas| {
      assert PreguntaDeId(f.id) in Preguntas;
    }
  }

  /** The "Pregunta" column: `df_largo["ID"].apply(...)`. */
  function ColumnaPregunta(ids: seq<int>): (c: seq<string>)
    ensures |c| == |ids|
    ensures forall i :: 0 <= i < |ids| ==> (c[i] in Preguntas <==> 0 < ids[i] <= |Preguntas|)
  {
    PreguntasDistintas();
    seq(|ids|, i requires 0 <= i < |ids| => PreguntaDeId(ids[i]))
  }

  /**
   Collects a column of per-row outcomes as `apply` does: the first row that raises aborts the
   whole column with its error; otherwise the column holds every row's value.
   */
  function Recoger(rs: seq<Result<Dictamen, Error>>): (r: Result<seq<Dictamen>, Error>)
    ensures r.Ok? <==> forall i :: 0 <= i < |rs| ==> rs[i].Ok?
    ensures r.Ok? ==> |r.value| == |rs| && forall i :: 0 <= i < |rs| ==> rs[i] == Ok(r.value[i])
    ensures r.Err? ==> exists i :: 0 <= i < |rs| && rs[i] == Err(r.error) && forall j :: 0 <= j < i ==> rs[j].Ok?
  {
    if |rs| == 0 then Ok([])
    else
      match rs[0]
      case Err(e) => Err(e)
      case Ok(d) =>
        match Recoger(rs[1..])
        case Err(e) =>
          assert exists i :: 0 <= i < |rs| && rs[i] == Err(e) && forall j :: 0 <= j < i ==> rs[j].Ok? by {
            var k :| 0 <= k < |rs| - 1 && rs[1..][k] == Err(e) && forall j :: 0 <= j < k ==> rs[1..][j].Ok?;
            assert rs[k + 1] == Err(e);
            forall j | 0 <= j < k + 1 ensures rs[j].Ok? {
              if j > 0 { assert rs[j] == rs[1..][j - 1]; }
            }
          }
          Err(e)
        case Ok(ds) =>
          assert forall i :: 1 <= i < |rs| ==> rs[i] == rs[1..][i - 1];
          Ok([d] + ds)
  }

  /**
   The row-by-row `apply` of `evaluar_respuesta_p4`, stopping at the first row whose question
   lookup raises.
   */
  function Evaluaciones(respuestas: seq<Option<string>>, preguntas: seq<string>): (r: Result<seq<Dictamen>, Error>)
    requires |respuestas| == |preguntas|
    ensures r.Ok? <==> forall i :: 0 <= i < |respuestas| ==> EvaluarRespuesta(respuestas[i], preguntas[i]).Ok?
    ensures r.Ok? ==> |r.value| == |respuestas|
    ensures r.Ok? ==> forall i :: 0 <= i < |respuestas| ==> EvaluarRespuesta(respuestas[i], preguntas[i]) == Ok(r.value[i])
  {
    var rs := seq(|respuestas|, i requires 0 <= i < |respuestas| => EvaluarRespuesta(respuestas[i], preguntas[i]));
    assert forall i :: 0 <= i < |respuestas| ==> rs[i] == EvaluarRespuesta(respuestas[i], preguntas[i]);
    Recoger(rs)
  }

  /** Column "ID" of a list of rows. */
  function Ids(filas: seq<Fila>): seq<int> {
    seq(|filas|, i requires 0 <= i < |filas| => filas[i].id)
  }

  /** Column "Respuesta" of a list of rows. */
  function Respuestas(filas: seq<Fila>): seq<Option<string>> {
    seq(|filas|, i requires 0 <= i < |filas| => filas[i].respuesta)
  }

  /** Reassembles rows, questions and (label, explanation) pairs column by column. */
  function Evaluadas(filas: seq<Fila>, preguntas: seq<string>, dictamenes: seq<Dictamen>): seq<FilaEvaluada>
    requires |preguntas| == |filas| && |dictamenes| == |filas|
  {
    seq(|filas|, i requires 0 <= i < |filas| => FilaEvaluada(filas[i], preguntas[i], dictamenes[i]))
  }

  /** `all(e == "Adecuada" for e in evals)` over the rows of student `e`. */
  function TodasAdecuadas(filas: seq<FilaEvaluada>, e: string): (b: bool)
    ensures b <==> forall i :: 0 <= i < |filas| && filas[i].fila.estudiante == e ==> filas[i].dictamen.evaluacion == Adecuada
  {
    if |filas| == 0 then true
    else
      var b := TodasAdecuadas(filas[1..], e);
      assert forall i :: 1 <= i < |filas| ==> filas[1..][i - 1] == filas[i];
      (filas[0].fila.estudiante != e || filas[0].dictamen.evaluacion == Adecuada) && b
  }

  /** The summary label of student `e`. */
  function ClasificacionDe(filas: seq<FilaEvaluada>, e: string): Clasificacion {
    if TodasAdecuadas(filas, e) then Cumple else NoCumple
  }

  /**
   Line 44 on the label strings: a student's "Clasificación General" reads "Cumple" exactly when
   every one of their rows reads "Adecuada", and "No cumple" otherwise.
   */
  lemma ClasificacionTexto(filas: seq<FilaEvaluada>, e: string)
    ensures ClasificacionDe(filas, e).Texto()
      == if forall i :: 0 <= i < |filas| && filas[i].fila.estudiante == e ==> filas[i].dictamen.evaluacion.Texto() == "Adecuada"
         then "Cumple" else "No cumple"
  {
    forall i | 0 <= i < |filas| {
      TextosEvaluacion(filas[i].dictamen.evaluacion, Adecuada);
    }
  }

  /** All elements of `xs` are different. */
  ghost predicate SinRepetidos(xs: seq<string>) {
    forall i, j :: 0 <= i < j < |xs| ==> xs[i] != xs[j]
  }

  /** The distinct values of `xs`, each where it first appears. */
  function Distintos(xs: seq<string>): (r: seq<string>)
    ensures forall e :: e in r <==> e in xs
    ensures SinRepetidos(r)
  {
    if |xs| == 0 then []
    else
      var ini := xs[..|xs| - 1];
      var r := Distintos(ini);
      assert xs == ini + [xs[|xs| - 1]];
      if xs[|xs| - 1] in r then r else r + [xs[|xs| - 1]]
  }

  /** Column "Estudiante" of evaluated rows. */
  function NombresEstudiantes(filas: seq<FilaEvaluada>): seq<string> {
    seq(|filas|, i requires 0 <= i < |filas| => filas[i].fila.estudiante)
  }

  /** A name of the "Estudiante" column is the name of some row. */
  lemma NombreDeFila(filas: seq<FilaEvaluada>, n: string)
    requires n in NombresEstudiantes(filas)
    ensures exists i :: 0 <= i < |filas| && filas[i].fila.estudiante == n
  {
    var i :| 0 <= i < |filas| && NombresEstudiantes(filas)[i] == n;
    assert filas[i].fila.estudiante == n;
  }

  /** Student `e` has a row in the summary. */
  ghost predicate Registrado(resumen: seq<FilaResumen>, e: string) {
    exists j :: 0 <= j < |resumen| && resumen[j].estudiante == e
  }

  /** No two summary rows are for the same student. */
  ghost predicate ClavesUnicas(resumen: seq<FilaResumen>) {
    forall a, b :: 0 <= a < b < |resumen| ==> resumen[a].estudiante != resumen[b].estudiante
  }

  /**
   The groupby summary: one row per student with their label. (pandas orders the groups by name;
   the left merge below keeps the order of the long table, so that order never reaches the output.)
   */
  function Resumen(filas: seq<FilaEvaluada>): (r: seq<FilaResumen>)
    ensures ClavesUnicas(r)
    ensures forall j :: 0 <= j < |r| ==> r[j].clasificacion == ClasificacionDe(filas, r[j].estudiante)
    ensures forall i :: 0 <= i < |filas| ==> Registrado(r, filas[i].fila.estudiante)
    ensures forall j :: 0 <= j < |r| ==> exists i :: 0 <= i < |filas| && filas[i].fila.estudiante == r[j].estudiante
  {
    var es := Distintos(NombresEstudiantes(filas));
    var r := seq(|es|, j requires 0 <= j < |es| => FilaResumen(es[j], ClasificacionDe(filas, es[j])));
    assert forall i :: 0 <= i < |filas| ==> Registrado(r, filas[i].fila.estudiante) by {
      forall i | 0 <= i < |filas| ensures Registrado(r, filas[i].fila.estudiante) {
        var n := filas[i].fila.estudiante;
        assert NombresEstudiantes(filas)[i] == n;
        assert n in es;
        var j :| 0 <= j < |es| && es[j] == n;
        assert r[j].estudiante == n;
      }
    }
    forall j | 0 <= j < |r| ensures exists i :: 0 <= i < |filas| && filas[i].fila.estudiante == r[j].estudiante {
      NombreDeFila(filas, es[j]);
    }
    r
  }

  /** The summary labels recorded for student `e`, in summary order. */
  function Coincidentes(resumen: seq<FilaResumen>, e: string): seq<Clasificacion> {
    if |resumen| == 0 then []
    else (if resumen[0].estudiante == e then [resumen[0].clasificacion] else []) + Coincidentes(resumen[1..], e)
  }

  /** `merge(resumen, on="Estudiante", how="left")`: each row once per matching summary row, or once unmatched. */
  function MergeLeft(filas: seq<FilaEvaluada>, resumen: seq<FilaResumen>): seq<FilaFinal> {
    if |filas| == 0 then []
    else
      var cs := Coincidentes(resumen, filas[0].fila.estudiante);
      var primeras := if |cs| == 0 then [FilaFinal(filas[0], None)]
        else seq(|cs|, j requires 0 <= j < |cs| => FilaFinal(filas[0], Some(cs[j])));
      primeras + MergeLeft(filas[1..], resumen)
  }

  /** In a summary whose keys are unique, a present key matches exactly its own row. */
  lemma {:induction false} CoincidenteUnico(resumen: seq<FilaResumen>, j: nat)
    requires j < |resumen| && ClavesUnicas(resumen)
    ensures Coincidentes(resumen, resumen[j].estudiante) == [resumen[j].clasificacion]
  {
    var e := resumen[j].estudiante;
    if j == 0 {
      AusenteSinCoincidentes(resumen[1..], e);
    } else {
      CoincidenteUnico(resumen[1..], j - 1);
      assert resumen[1..][j - 1] == resumen[j];
    }
  }

  /** A key that no summary row has matches nothing. */
  lemma {:induction false} AusenteSinCoincidentes(resumen: seq<FilaResumen>, e: string)
    requires forall a :: 0 <= a < |resumen| ==> resumen[a].estudiante != e
    ensures Coincidentes(resumen, e) == []
  {
    if |resumen| > 0 {
      AusenteSinCoincidentes(resumen[1..], e);
    }
  }

  /** The summary gives every student of the table exactly one label: their own. */
  lemma ResumenCoincide(filas: seq<FilaEvaluada>, i: nat)
    requires i < |filas|
    ensures Coincidentes(Resumen(filas), filas[i].fila.estudiante) == [ClasificacionDe(filas, filas[i].fila.estudiante)]
  {
    var r := Resumen(filas);
    assert Registrado(r, filas[i].fila.estudiante);
    var j :| 0 <= j < |r| && r[j].estudiante == filas[i].fila.estudiante;
    CoincidenteUnico(r, j);
  }

  /**
   A left merge in which every row matches exactly one summary row neither drops nor duplicates
   rows: row `i` of the output is row `i` of the input with its student's summary label.
   */
  lemma {:induction false} MergeLeftUnico(filas: seq<FilaEvaluada>, resumen: seq<FilaResumen>)
    requires forall i :: 0 <= i < |filas| ==> |Coincidentes(resumen, filas[i].fila.estudiante)| == 1
    ensures |MergeLeft(filas, resumen)| == |filas|
    ensures forall i :: 0 <= i < |filas| ==>
      MergeLeft(filas, resumen)[i] == FilaFinal(filas[i], Some(Coincidentes(resumen, filas[i].fila.estudiante)[0]))
  {
    if |filas| > 0 {
      var rest := filas[1..];
      assert forall i :: 0 <= i < |rest| ==> rest[i] == filas[i + 1];
      MergeLeftUnico(rest, resumen);
      var cs := Coincidentes(resumen, filas[0].fila.estudiante);
      assert |cs| == 1;
      var m := MergeLeft(filas, resumen);
      assert m == [FilaFinal(filas[0], Some(cs[0]))] + MergeLeft(rest, resumen);
    }
  }

  /**
   Lines 37-41 of `analizar_respuestas_p4`: the "Pregunta" column, then every row's
   (label, explanation) pair, or the error of the first row whose lookup raises.
   */
  function EvaluarTabla(filas: seq<Fila>): Result<seq<FilaEvaluada>, Error> {
    var preguntas := ColumnaPregunta(Ids(filas));
    match Evaluaciones(Respuestas(filas), preguntas)
    case Err(e) => Err(e)
    case Ok(ds) => Ok(Evaluadas(filas, preguntas, ds))
  }

  /** `analizar_respuestas_p4(df_largo)` on the rows of the long table, as a value. */
  function Analisis(filas: seq<Fila>): Result<seq<FilaFinal>, Error> {
    match EvaluarTabla(filas)
    case Err(e) => Err(e)
    case Ok(evaluadas) => Ok(MergeLeft(evaluadas, Resumen(evaluadas)))
  }

  /** A table with no rows gives an empty result. */
  lemma AnalisisVacia()
    ensures Analisis([]) == Ok([])
  {
  }

  /** The analysis raises exactly when some row has a non-empty answer and an "ID" outside 1..6. */
  lemma AnalisisFallaIff(filas: seq<Fila>)
    ensures Analisis(filas).Err? <==> exists i :: 0 <= i < |filas| && !EsVacia(filas[i].respuesta) && !(0 < filas[i].id <= |Preguntas|)
  {
    var preguntas := ColumnaPregunta(Ids(filas));
    forall i | 0 <= i < |filas|
      ensures EvaluarRespuesta(Respuestas(filas)[i], preguntas[i]).Err?
        <==> !EsVacia(filas[i].respuesta) && !(0 < filas[i].id <= |Preguntas|)
    {
      EvaluarFila(filas[i]);
    }
  }

  /** Row `i` evaluated: the input row, its "Pregunta" and the pair `evaluar_respuesta_p4` gives it. */
  ghost predicate EvaluadaDe(f: Fila, ev: FilaEvaluada) {
    ev.fila == f
    && ev.pregunta == PreguntaDeId(f.id)
    && EvaluarRespuesta(f.respuesta, PreguntaDeId(f.id)) == Ok(ev.dictamen)
  }

  /** A successful evaluation keeps the rows in order and pairs each with its own evaluation. */
  lemma EvaluarTablaFilas(filas: seq<Fila>)
    requires EvaluarTabla(filas).Ok?
    ensures |EvaluarTabla(filas).value| == |filas|
    ensures forall i :: 0 <= i < |filas| ==> EvaluadaDe(filas[i], EvaluarTabla(filas).value[i])
  {
    var preguntas := ColumnaPregunta(Ids(filas));
    var ds := Evaluaciones(Respuestas(filas), preguntas).value;
    forall i | 0 <= i < |filas| ensures EvaluadaDe(filas[i], EvaluarTabla(filas).value[i]) {
      assert Respuestas(filas)[i] == filas[i].respuesta;
      assert preguntas[i] == PreguntaDeId(filas[i].id);
    }
  }

  /** The evaluation of one answer succeeded with "Adecuada". */
  predicate EsAdecuada(r: Result<Dictamen, Error>) {
    r.Ok? && r.value.evaluacion == Adecuada
  }

  /** Every row of student `e` is "Adecuada". */
  ghost predicate CumpleEstudiante(filas: seq<Fila>, e: string) {
    forall j :: 0 <= j < |filas| && filas[j].estudiante == e ==> EsAdecuada(EvaluarRespuesta(filas[j].respuesta, PreguntaDeId(filas[j].id)))
  }

  /** On evaluated rows, the all-"Adecuada" reduction of a student is `CumpleEstudiante`. */
  lemma TodasAdecuadasCumple(filas: seq<Fila>, e: string)
    requires EvaluarTabla(filas).Ok?
    ensures TodasAdecuadas(EvaluarTabla(filas).value, e) <==> CumpleEstudiante(filas, e)
  {
    EvaluarTablaFilas(filas);
    var ev := EvaluarTabla(filas).value;
    forall k | 0 <= k < |filas|
      ensures (ev[k].fila.estudiante == e ==> ev[k].dictamen.evaluacion == Adecuada)
        <==> (filas[k].estudiante == e ==> EsAdecuada(EvaluarRespuesta(filas[k].respuesta, PreguntaDeId(filas[k].id))))
    {
      assert EvaluadaDe(filas[k], ev[k]);
    }
  }

  /**
   A successful analysis returns the input rows, in order and each exactly once, each extended with
   its "Pregunta", its (label, explanation) pair from `evaluar_respuesta_p4`, and its student's
   "Clasificación General": "Cumple" iff every row of that student is "Adecuada", else "No cumple".
   */
  lemma AnalisisFilas(filas: seq<Fila>)
    requires Analisis(filas).Ok?
    ensures |Analisis(filas).value| == |filas|
    ensures forall i :: 0 <= i < |filas| ==>
      EvaluadaDe(filas[i], Analisis(filas).value[i].evaluada)
      && Analisis(filas).value[i].clasificacion == Some(if CumpleEstudiante(filas, filas[i].estudiante) then Cumple else NoCumple)
  {
    var ev := EvaluarTabla(filas).value;
    EvaluarTablaFilas(filas);
    var resumen := Resumen(ev);
    forall i | 0 <= i < |ev| ensures |Coincidentes(resumen, ev[i].fila.estudiante)| == 1 {
      ResumenCoincide(ev, i);
    }
    MergeLeftUnico(ev, resumen);
    var out := Analisis(filas).value;
    forall i | 0 <= i < |filas|
      ensures EvaluadaDe(filas[i], out[i].evaluada)
      ensures out[i].clasificacion == Some(if CumpleEstudiante(filas, filas[i].estudiante) then Cumple else NoCumple)
    {
      var e := filas[i].estudiante;
      assert EvaluadaDe(filas[i], ev[i]);
      ResumenCoincide(ev, i);
      TodasAdecuadasCumple(filas, e);
    }
  }

  /** All rows of one student carry the same "Clasificación General". */
  lemma MismoEstudianteMismaClasificacion(filas: seq<Fila>, i: nat, j: nat)
    requires Analisis(filas).Ok?
    requires i < |filas| && j < |filas| && filas[i].estudiante == filas[j].estudiante
    ensures |Analisis(filas).value| == |filas|
    ensures Analisis(filas).value[i].clasificacion == Analisis(filas).value[j].clasificacion
  {
    AnalisisFilas(filas);
  }

  /** Rebuilds rows from the three input columns. */
  function Zip(ids: seq<int>, respuestas: seq<Option<string>>, estudiantes: seq<string>): (f: seq<Fila>)
    requires |respuestas| == |ids| && |estudiantes| == |ids|
    ensures |f| == |ids|
    ensures Ids(f) == ids && Respuestas(f) == respuestas
  {
    seq(|ids|, i requires 0 <= i < |ids| => Fila(ids[i], respuestas[i], estudiantes[i]))
  }

  /** The analysis of a table, step by step: the question column, the evaluations, the merge. */
  lemma AnalisisPasos(filas: seq<Fila>, preguntas: seq<string>, ev: Result<seq<Dictamen>, Error>)
    requires preguntas == ColumnaPregunta(Ids(filas))
    requires ev == Evaluaciones(Respuestas(filas), preguntas)
    ensures ev.Err? ==> Analisis(filas) == Err(ev.error)
    ensures ev.Ok? ==> Analisis(filas) == Ok(MergeLeft(Evaluadas(filas, preguntas, ev.value), Resumen(Evaluadas(filas, preguntas, ev.value))))
  {
  }

  /** Merging the evaluated rows with their own summary keeps each row, in place. */
  lemma MergeLeftResumen(evaluadas: seq<FilaEvaluada>)
    ensures |MergeLeft(evaluadas, Resumen(evaluadas))| == |evaluadas|
    ensures forall i :: 0 <= i < |evaluadas| ==> MergeLeft(evaluadas, Resumen(evaluadas))[i].evaluada == evaluadas[i]
  {
    var resumen := Resumen(evaluadas);
    forall i | 0 <= i < |evaluadas| ensures |Coincidentes(resumen, evaluadas[i].fila.estudiante)| == 1 {
      ResumenCoincide(evaluadas, i);
    }
    MergeLeftUnico(evaluadas, resumen);
  }

  /**
   The caller's DataFrame, column by column. The columns the analysis adds are `None` until it
   adds them; `analizar_respuestas_p4` writes them into this object in place.
   */
  class TablaLarga {
    var id: seq<int>
    var respuesta: seq<Option<string>>
    var estudiante: seq<string>
    var pregunta: Option<seq<string>>
    var evaluacion: Option<seq<Evaluacion>>
    var explicacion: Option<seq<string>>

    /** Every present column has one cell per row. */
    ghost predicate Valid()
      reads this
    {
      |respuesta| == |id| && |estudiante| == |id|
      && (pregunta.Some? ==> |pregunta.value| == |id|)
      && (evaluacion.Some? ==> |evaluacion.value| == |id|)
      && (explicacion.Some? ==> |explicacion.value| == |id|)
    }

    /** The rows of the three input columns. */
    function Filas(): seq<Fila>
      reads this
      requires Valid()
    {
      Zip(id, respuesta, estudiante)
    }

    /** A table holding the given rows and none of the added columns. */
    constructor (filas: seq<Fila>)
      ensures Valid() && Filas() == filas
      ensures pregunta.None? && evaluacion.None? && explicacion.None?
    {
      id := Ids(filas);
      respuesta := Respuestas(filas);
      estudiante := seq(|filas|, i requires 0 <= i < |filas| => filas[i].estudiante);
      pregunta, evaluacion, explicacion := None, None, None;
    }
  }

  /** `df_largo["Pregunta"] = ...`: adds the question column to the caller's table. */
  method AnadirPregunta(df: TablaLarga) returns (preguntas: seq<string>)
    requires df.Valid()
    modifies df
    ensures df.Valid()
    ensures preguntas == ColumnaPregunta(df.id) && df.pregunta == Some(preguntas)
    ensures df.id == old(df.id) && df.respuesta == old(df.respuesta) && df.estudiante == old(df.estudiante)
    ensures df.evaluacion == old(df.evaluacion) && df.explicacion == old(df.explicacion)
  {
    preguntas := ColumnaPregunta(df.id);
    df.pregunta := Some(preguntas);
  }

  /** `df_largo[["Evaluación Pilar 4", "Explicación"]] = ...`: adds the label and explanation columns of the (label, explanation) pairs. */
  method AnadirDictamenes(df: TablaLarga, ds: seq<Dictamen>)
    requires df.Valid() && |ds| == |df.id|
    modifies df
    ensures df.Valid()
    ensures df.id == old(df.id) && df.respuesta == old(df.respuesta) && df.estudiante == old(df.estudiante)
    ensures df.pregunta == old(df.pregunta)
    ensures df.evaluacion.Some? && df.explicacion.Some?
    ensures forall i :: 0 <= i < |ds| ==>
      df.evaluacion.value[i] == ds[i].evaluacion && df.explicacion.value[i] == ds[i].explicacion
  {
    df.evaluacion := Some(seq(|ds|, i requires 0 <= i < |ds| => ds[i].evaluacion));
    df.explicacion := Some(seq(|ds|, i requires 0 <= i < |ds| => ds[i].explicacion));
  }

  /**
   `analizar_respuestas_p4(df_largo)`. It first writes the "Pregunta" column into the caller's
   table; when the question lookup of some row raises, it stops there, leaving that column written
   and the other two as they were. Otherwise it writes "Evaluación Pilar 4" and "Explicación" too
   and returns the merged rows.
   */
  method AnalizarRespuestasP4(df: TablaLarga) returns (r: Result<seq<FilaFinal>, Error>)
    requires df.Valid()
    modifies df
    ensures df.Valid()
    ensures df.id == old(df.id) && df.respuesta == old(df.respuesta) && df.estudiante == old(df.estudiante)
    ensures df.pregunta == Some(ColumnaPregunta(df.id))
    ensures r == Analisis(old(df.Filas()))
    ensures r.Err? ==> df.evaluacion == old(df.evaluacion) && df.explicacion == old(df.explicacion)
    ensures r.Ok? ==> df.evaluacion.Some? && df.explicacion.Some? && |r.value| == |df.id|
    ensures r.Ok? ==> forall i :: 0 <= i < |df.id| ==>
      df.evaluacion.value[i] == r.value[i].evaluada.dictamen.evaluacion
      && df.explicacion.value[i] == r.value[i].evaluada.dictamen.explicacion
  {
    var filas := df.Filas();
    var preguntas := AnadirPregunta(df);
    var evaluaciones := Evaluaciones(df.respuesta, preguntas);
    AnalisisPasos(filas, preguntas, evaluaciones);
    if evaluaciones.Err? {
      r := Err(evaluaciones.error);
      return;
    }
    var ds := evaluaciones.value;
    AnadirDictamenes(df, ds);
    var evaluadas := Evaluadas(filas, preguntas, ds);
    r := Ok(MergeLeft(evaluadas, Resumen(evaluadas)));
    MergeLeftResumen(evaluadas);
  }
}
