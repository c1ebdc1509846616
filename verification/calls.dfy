/** The call log the dashboard works on: one immutable record per call,
    loaded once and never changed (the CSV loading itself is not modelled). */
module Calls {
  import opened Wrappers

  /** A day number (days since some fixed epoch). */
  type Day = int

  /** A point in time, in seconds since the same epoch. */
  type Stamp = int

  /** One row of the table: the timestamp column `Data`, the calendar date
      column `data`, `destino_nome`, `atendida`, `duracao_segundos` and the
      precomputed `faixa_horaria`, `dia_semana`, `hora` and `tipo_dia`. */
  datatype Call = Call(
    stamp: Stamp,
    day: Day,
    dest: string,
    answered: bool,
    duration: nat,
    bucket: string,
    weekday: string,
    hour: int,
    dayType: string)

  /** The earliest timestamp of the table (`df['Data'].min()`); None for an
      empty table, where pandas yields a missing value. */
  function MinStamp(rows: seq<Call>): (r: Option<Stamp>)
    ensures r.None? <==> |rows| == 0
    ensures r.Some? ==> exists i :: 0 <= i < |rows| && rows[i].stamp == r.value
    ensures r.Some? ==> forall i :: 0 <= i < |rows| ==> r.value <= rows[i].stamp
    decreases |rows|
  {
    if |rows| == 0 then None
    else
      match MinStamp(rows[1..])
      case None => Some(rows[0].stamp)
      case Some(m) => Some(if rows[0].stamp <= m then rows[0].stamp else m)
  }

  /** The latest timestamp of the table (`df['Data'].max()`); None for an
      empty table. */
  function MaxStamp(rows: seq<Call>): (r: Option<Stamp>)
    ensures r.None? <==> |rows| == 0
    ensures r.Some? ==> exists i :: 0 <= i < |rows| && rows[i].stamp == r.value
    ensures r.Some? ==> forall i :: 0 <= i < |rows| ==> rows[i].stamp <= r.value
    decreases |rows|
  {
    if |rows| == 0 then None
    else
      match MaxStamp(rows[1..])
      case None => Some(rows[0].stamp)
      case Some(m) => Some(if rows[0].stamp >= m then rows[0].stamp else m)
  }
}
