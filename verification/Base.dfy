/** Shared value types: optional and fallible results, identifiers and free text. */
module Base {

  datatype Option<+T> = None | Some(value: T)

  datatype Result<+T, +E> = Ok(value: T) | Err(error: E)

  /** A UUID. Only equality matters, and the nil identifier. */
  type Id = nat
  const NIL: Id := 0

  /** Instants and durations are counted in nanoseconds. */
  const SECOND := 1_000_000_000

  /** What strings.TrimSpace leaves empty, over the ASCII white space. */
  predicate Blank(text: string) {
    forall c :: c in text ==> c in " \t\n\r"
  }

  /** The text holds a character that is not white space. */
  ghost predicate Says(text: string) {
    exists i :: 0 <= i < |text| && text[i] != ' ' && text[i] != '\t' && text[i] != '\n' && text[i] != '\r'
  }

  lemma SaysExactlyWhen(text: string)
    ensures Says(text) <==> !Blank(text)
  {
    if Says(text) {
      var i :| 0 <= i < |text| && text[i] != ' ' && text[i] != '\t' && text[i] != '\n' && text[i] != '\r';
      assert text[i] in text && text[i] !in " \t\n\r";
    } else {
      forall c | c in text ensures c in " \t\n\r" {
        var i :| 0 <= i < |text| && text[i] == c;
        assert " \t\n\r"[0] == ' ' && " \t\n\r"[1] == '\t' && " \t\n\r"[2] == '\n' && " \t\n\r"[3] == '\r';
      }
    }
  }

  function Max(a: int, b: int): int {
    if a < b then b else a
  }
}
