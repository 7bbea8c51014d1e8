/** The literal tables of constants.ts. */
module Constants {
  import opened Seqs
  import opened Types

  /** Weekday names, index 0 = Sunday, the numbering of `Date.getDay`. */
  const DAYS_OF_WEEK: seq<string> :=
    ["Domingo", "Segunda-feira", "Terça-feira", "Quarta-feira", "Quinta-feira", "Sexta-feira", "Sábado"]

  const MONTH_NAMES: seq<string> :=
    ["Janeiro", "Fevereiro", "Março", "Abril", "Maio", "Junho",
     "Julho", "Agosto", "Setembro", "Outubro", "Novembro", "Dezembro"]

  /** The reserved id of the marker stamped by the duty calculator. */
  const EXTRA_AC4: string := "extra_ac4"

  const DEFAULT_SHIFT_TYPES: seq<ShiftType> := [
    ShiftType("ordinario", "TURNO", "TURNO", "#0000FF", "#FFFFFF", Some(8), None, None, None),
    ShiftType(EXTRA_AC4, "EXTRA AC4", "EXTRA", "#EF4444", "#FFFFFF", Some(10), None, None, None)
  ]

  /** The two axes of the AC4 rate table. */
  datatype Scale = Blue | Red
  datatype Period = Day | Night

  /** AC4_RULES, in cents. */
  function AC4Rule(scale: Scale, period: Period): int
  {
    match (scale, period)
    case (Blue, Day) => 2647
    case (Blue, Night) => 2980
    case (Red, Day) => 3641
    case (Red, Night) => 4138
  }

  /** Holidays and optional days off, keyed by "MM-DD" for yearly recurrence. */
  const HOLIDAYS: map<string, string> := map[
    "01-01" := "Ano Novo",
    "04-03" := "Sexta-feira Santa",
    "04-21" := "Dia de Tiradentes",
    "05-01" := "Dia do Trabalho",
    "09-07" := "Independência do Brasil",
    "10-12" := "Nossa Sra. Aparecida",
    "11-02" := "Dia de Finados",
    "11-15" := "Proclamação da República",
    "11-20" := "Dia da Consciência Negra",
    "12-25" := "Natal",
    "02-16" := "Carnaval",
    "02-17" := "Carnaval",
    "02-18" := "Quarta-feira de Cinzas",
    "06-04" := "Corpus Christi"
  ]

  /** The name tables have one entry per weekday and per month, in order. */
  lemma NameTables()
    ensures |DAYS_OF_WEEK| == 7 && DAYS_OF_WEEK[0] == "Domingo" && DAYS_OF_WEEK[5] == "Sexta-feira" &&
            DAYS_OF_WEEK[6] == "Sábado"
    ensures |MONTH_NAMES| == 12 && MONTH_NAMES[0] == "Janeiro" && MONTH_NAMES[11] == "Dezembro"
  {
  }

  /** The default shift types have distinct ids and include the reserved one. */
  lemma DefaultShiftTypes()
    ensures forall i, j :: 0 <= i < j < |DEFAULT_SHIFT_TYPES| ==>
              DEFAULT_SHIFT_TYPES[i].id != DEFAULT_SHIFT_TYPES[j].id
    ensures exists i :: 0 <= i < |DEFAULT_SHIFT_TYPES| && DEFAULT_SHIFT_TYPES[i].id == EXTRA_AC4
  {
    assert DEFAULT_SHIFT_TYPES[1].id == EXTRA_AC4;
  }

  /** The red scale pays more than the blue one, and night more than day. */
  lemma AC4RulesOrdered()
    ensures forall p :: AC4Rule(Red, p) > AC4Rule(Blue, p)
    ensures forall s :: AC4Rule(s, Night) > AC4Rule(s, Day)
  {
  }
}
