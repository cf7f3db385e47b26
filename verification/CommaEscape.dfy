/** Escaping commas (strdup_esc_commas, src/cmds/qsub.c:828-864) and lists of key=value texts. */
module CommaEscape {
  import opened CText

  /** str with a backslash in front of every comma. */
  function EscCommas(s: string): string {
    if s == "" then ""
    else (if s[0] == ',' then [ESC, ','] else [s[0]]) + EscCommas(s[1..])
  }

  lemma {:induction false} EscCommasStep(s: string, k: nat)
    requires k < |s|
    ensures EscCommas(s[k..]) == (if s[k] == ',' then [ESC, ','] else [s[k]]) + EscCommas(s[k + 1..])
  {
    assert s[k..][1..] == s[k + 1..];
  }

  lemma {:induction false} EscCommasEmpty(s: string, k: nat)
    requires k == |s|
    ensures s[0..] == s && EscCommas(s[k..]) == ""
  {
  }

  lemma {:induction false} Assoc(a: string, b: string, c: string)
    ensures a + b + c == a + (b + c)
  {
  }

  method StrdupEscCommas(str: string) returns (dup: string)
    ensures dup == EscCommas(str)
  {
    hide EscCommas;
    var roaming := 0;
    dup := "";
    EscCommasEmpty(str, |str|);
    assert dup + EscCommas(str) == EscCommas(str);
    while roaming < |str|
      invariant roaming <= |str|
      invariant dup + EscCommas(str[roaming..]) == EscCommas(str)
    {
      while roaming < |str| && str[roaming] != ','
        invariant roaming <= |str|
        invariant dup + EscCommas(str[roaming..]) == EscCommas(str)
        decreases |str| - roaming
      {
        EscCommasStep(str, roaming);
        Assoc(dup, [str[roaming]], EscCommas(str[roaming + 1..]));
        dup := dup + [str[roaming]];
        roaming := roaming + 1;
      }
      if roaming < |str| {
        EscCommasStep(str, roaming);
        Assoc(dup, [ESC, ','], EscCommas(str[roaming + 1..]));
        dup := dup + [ESC, ','];
        roaming := roaming + 1;
      }
    }
    assert dup + "" == dup;
  }

  datatype Entry = Entry(key: string, value: string) {
    function Text(): string {
      key + "=" + EscCommas(value)
    }
  }

  /** Every entry with a comma in front of it. */
  function Tail(es: seq<Entry>): string {
    if es == [] then "" else "," + es[0].Text() + Tail(es[1..])
  }

  /** The comma-join of the entries. */
  function Join(es: seq<Entry>): string {
    if es == [] then "" else es[0].Text() + Tail(es[1..])
  }

  lemma {:induction false} TailAppend(a: seq<Entry>, b: seq<Entry>)
    ensures Tail(a + b) == Tail(a) + Tail(b)
  {
    if a == [] {
      assert a + b == b;
    } else {
      assert (a + b)[1..] == a[1..] + b;
      TailAppend(a[1..], b);
    }
  }

  lemma {:induction false} JoinAppend(a: seq<Entry>, b: seq<Entry>)
    requires a != []
    ensures Join(a + b) == Join(a) + Tail(b)
  {
    assert (a + b)[1..] == a[1..] + b;
    TailAppend(a[1..], b);
  }
}
