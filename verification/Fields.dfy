/** Counter fields: a name and a status joined by a NUL character, and split at the first one. */
module Fields {
  import opened Model

  const NUL: char := '\0'

  function CountField(name: string, status: string): string { name + [NUL] + status }

  ghost predicate IsSplit(field: string, name: string, status: string) {
    field == CountField(name, status) && NUL !in name
  }

  method ParseField(field: string) returns (parts: Option<(string, string)>)
    ensures parts.None? <==> NUL !in field
    ensures parts.Some? ==> IsSplit(field, parts.value.0, parts.value.1)
  {
    for i := 0 to |field|
      invariant NUL !in field[..i]
    {
      if field[i] == NUL {
        assert field == field[..i] + [NUL] + field[i + 1..];
        return Some((field[..i], field[i + 1..]));
      }
      assert field[..i + 1] == field[..i] + [field[i]];
    }
    assert field[..|field|] == field;
    parts := None;
  }

  /** A field splits at its first NUL. */
  lemma FirstAt(field: string, name: string, status: string)
    requires IsSplit(field, name, status)
    ensures |name| < |field| && field[|name|] == NUL && forall i :: 0 <= i < |name| ==> field[i] != NUL
  {
    assert forall i :: 0 <= i < |name| ==> field[i] == name[i] && name[i] in name;
  }

  /** There is one way to split a field. */
  lemma SplitIsUnique(field: string, name: string, status: string, name': string, status': string)
    requires IsSplit(field, name, status) && IsSplit(field, name', status')
    ensures name == name' && status == status'
  {
    FirstAt(field, name, status);
    FirstAt(field, name', status');
    assert |name| == |name'|;
    assert name == field[..|name|] && status == field[|name| + 1..];
    assert name' == field[..|name'|] && status' == field[|name'| + 1..];
  }

  /** Parsing undoes joining exactly for names without a NUL. */
  lemma ParseUndoesJoinExactly(name: string, status: string, parts: (string, string))
    requires IsSplit(CountField(name, status), parts.0, parts.1)
    ensures parts == (name, status) <==> NUL !in name
  {
    if NUL !in name {
      SplitIsUnique(CountField(name, status), name, status, parts.0, parts.1);
    }
  }
}
