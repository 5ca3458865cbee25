/** The hop-by-hop header filter, section 7.6.1 of RFC 9110. */
module Headers {
  import opened Common
  import opened Text

  type Fields = map<string, seq<string>>

  const HOP_BY_HOP: seq<string> := [
    "Connection", "Proxy-Connection", "Keep-Alive", "Proxy-Authenticate", "Proxy-Authorization",
    "Te", "Trailer", "Transfer-Encoding", "Upgrade"]

  predicate IsTokenChar(c: char) {
    || 'a' <= c <= 'z' || 'A' <= c <= 'Z' || '0' <= c <= '9'
    || c == '!' || c == '#' || c == '$' || c == '%' || c == '&' || c == '\'' || c == '*' || c == '+'
    || c == '-' || c == '.' || c == '^' || c == '_' || c == '`' || c == '|' || c == '~'
  }

  /** tchar, section 5.6.2 of RFC 9110. */
  lemma TokenChars(c: char)
    ensures IsTokenChar(c) <==>
            'a' <= c <= 'z' || 'A' <= c <= 'Z' || '0' <= c <= '9' || c in "!#$%&'*+-.^_`|~"
  {
  }

  predicate IsToken(s: string) {
    forall i :: 0 <= i < |s| ==> IsTokenChar(s[i])
  }

  function Recase(s: string, upper: bool): string
    decreases |s|
  {
    if s == "" then ""
    else [if upper then UpperChar(s[0]) else LowerChar(s[0])] + Recase(s[1..], s[0] == '-')
  }

  /** textproto.CanonicalMIMEHeaderKey: a name that is not a token is left as it is. */
  function CanonicalKey(name: string): string {
    if IsToken(name) then Recase(name, true) else name
  }

  predicate IsComma(c: char) {
    c == ','
  }

  /** The keys a list of comma-separated pieces names, blank pieces ignored. */
  function KeysNamed(pieces: seq<string>): set<string> {
    if pieces == [] then {}
    else
      var token := TrimSpace(pieces[0]);
      (if token != "" then {CanonicalKey(token)} else {}) + KeysNamed(pieces[1..])
  }

  function KeysNamedByAll(values: seq<string>): set<string> {
    if values == [] then {} else KeysNamed(SplitOn(values[0], IsComma)) + KeysNamedByAll(values[1..])
  }

  function ConnectionValues(fields: Fields): seq<string> {
    var key := CanonicalKey("Connection");
    if key in fields then fields[key] else []
  }

  ghost predicate PieceNames(piece: string, key: string) {
    TrimSpace(piece) != "" && CanonicalKey(TrimSpace(piece)) == key
  }

  ghost predicate ValueNames(value: string, key: string) {
    exists piece | piece in SplitOn(value, IsComma) :: PieceNames(piece, key)
  }

  /** `key` is named by a token of some Connection value. */
  ghost predicate NamedByConnection(fields: Fields, key: string) {
    exists value | value in ConnectionValues(fields) :: ValueNames(value, key)
  }

  /** `key` is the canonical spelling of a name on the fixed list. */
  ghost predicate IsHopByHop(key: string) {
    exists name | name in HOP_BY_HOP :: CanonicalKey(name) == key
  }

  /** What the filter leaves: end-to-end fields only, values untouched. */
  ghost predicate IsFiltered(before: Fields, after: Fields) {
    && after.Keys <= before.Keys
    && (forall key :: key in after ==> after[key] == before[key])
    && (forall key :: key in before ==> (key in after <==> key !in HOP_BY_HOP && !NamedByConnection(before, key)))
  }

  lemma {:induction false} KeysNamedMeaning(pieces: seq<string>, key: string)
    ensures key in KeysNamed(pieces) <==> exists piece | piece in pieces :: PieceNames(piece, key)
    decreases |pieces|
  {
    if pieces != [] {
      KeysNamedMeaning(pieces[1..], key);
      assert pieces == [pieces[0]] + pieces[1..];
      assert PieceNames(pieces[0], key) ==> pieces[0] in pieces;
    }
  }

  lemma {:induction false} KeysNamedByAllMeaning(values: seq<string>, key: string)
    ensures key in KeysNamedByAll(values) <==> exists value | value in values :: ValueNames(value, key)
    decreases |values|
  {
    if values != [] {
      KeysNamedByAllMeaning(values[1..], key);
      KeysNamedMeaning(SplitOn(values[0], IsComma), key);
      assert key in KeysNamed(SplitOn(values[0], IsComma)) <==> ValueNames(values[0], key);
      assert values == [values[0]] + values[1..];
    }
  }

  /** A value that lists comma-free pieces names what some piece, trimmed, names. */
  lemma ListNames(pieces: seq<string>, key: string)
    requires pieces != [] && forall piece :: piece in pieces ==> ',' !in piece
    ensures ValueNames(Join(pieces, ','), key) <==> exists piece | piece in pieces :: PieceNames(piece, key)
  {
    SplitUnique(pieces, IsComma, ',');
  }

  /** http.Header: a map shared by reference. */
  class Header {
    var fields: Fields

    constructor (fields: Fields)
      ensures this.fields == fields
    {
      this.fields := fields;
    }

    method Del(name: string)
      modifies this
      ensures fields == old(fields) - {CanonicalKey(name)}
    {
      fields := fields - {CanonicalKey(name)};
    }

    method Set(name: string, value: string)
      modifies this
      ensures fields == old(fields)[CanonicalKey(name) := [value]]
    {
      fields := fields[CanonicalKey(name) := [value]];
    }

    method DelNamed(value: string)
      modifies this
      ensures fields == old(fields) - KeysNamed(SplitOn(value, IsComma))
    {
      var pieces := SplitOn(value, IsComma);
      for j := 0 to |pieces|
        invariant old(fields) - KeysNamed(pieces) == fields - KeysNamed(pieces[j..])
      {
        assert pieces[j..][1..] == pieces[j + 1..];
        var token := TrimSpace(pieces[j]);
        if token != "" {
          Del(token);
        }
      }
    }

    method DelAll(names: seq<string>)
      modifies this
      ensures fields == old(fields) - CanonicalKeys(names)
    {
      for i := 0 to |names|
        invariant fields == old(fields) - CanonicalKeys(names[..i])
      {
        assert names[..i + 1] == names[..i] + [names[i]];
        Del(names[i]);
      }
      assert names[..|names|] == names;
    }

    /** Deletes while iterating: the Connection values are those present on entry even after a token
        has removed Connection itself. */
    method RemoveHopByHopHeaders()
      modifies this
      ensures IsFiltered(old(fields), fields)
    {
      var values := ConnectionValues(fields);
      for i := 0 to |values|
        invariant old(fields) - KeysNamedByAll(values) == fields - KeysNamedByAll(values[i..])
      {
        assert values[i..][1..] == values[i + 1..];
        DelNamed(values[i]);
      }
      assert values[|values|..] == [];
      DelAll(HOP_BY_HOP);
      FilteredBy(old(fields), fields);
    }
  }

  ghost function CanonicalKeys(names: seq<string>): set<string> {
    set name | name in names :: CanonicalKey(name)
  }

  lemma FilteredBy(before: Fields, after: Fields)
    requires after == (before - KeysNamedByAll(ConnectionValues(before))) - CanonicalKeys(HOP_BY_HOP)
    ensures IsFiltered(before, after)
  {
    forall key | key in before
      ensures key in KeysNamedByAll(ConnectionValues(before)) <==> NamedByConnection(before, key)
    {
      KeysNamedByAllMeaning(ConnectionValues(before), key);
    }
    forall key | key in before
      ensures key in CanonicalKeys(HOP_BY_HOP) <==> key in HOP_BY_HOP
    {
      FixedKeys(key);
      assert IsHopByHop(key) <==> key in CanonicalKeys(HOP_BY_HOP);
    }
  }

  // ---- canonical spelling ----

  lemma {:induction false} RecaseAt(s: string, upper: bool, i: nat)
    requires i < |s|
    ensures |Recase(s, upper)| == |s|
    ensures Recase(s, upper)[i] ==
            if (if i == 0 then upper else s[i - 1] == '-') then UpperChar(s[i]) else LowerChar(s[i])
    decreases |s|
  {
    if |s| > 1 {
      RecaseAt(s[1..], s[0] == '-', if i > 0 then i - 1 else 0);
    }
  }

  /** A token's canonical key is the token with capitals exactly where a word starts; a name that is
      not a token is its own key. */
  lemma CanonicalSpelling(name: string, i: nat)
    requires i < |name|
    ensures |CanonicalKey(name)| == |name|
    ensures CanonicalKey(name)[i] ==
            if !IsToken(name) then name[i]
            else if i == 0 || name[i - 1] == '-' then UpperChar(name[i])
            else LowerChar(name[i])
  {
    RecaseAt(name, true, i);
  }

  /** A word already so spelled. */
  predicate IsWord(s: string) {
    s != "" && 'A' <= s[0] <= 'Z' && forall i :: 1 <= i < |s| ==> 'a' <= s[i] <= 'z'
  }

  ghost predicate IsCanonical(s: string) {
    IsToken(s) && Recase(s, true) == s
  }

  lemma WordIsCanonical(s: string)
    requires IsWord(s)
    ensures IsCanonical(s)
  {
    forall i | 0 <= i < |s|
      ensures |Recase(s, true)| == |s| && Recase(s, true)[i] == s[i]
    {
      RecaseAt(s, true, i);
    }
  }

  lemma {:induction false} RecaseHyphen(a: string, b: string, upper: bool)
    ensures Recase(a + "-" + b, upper) == Recase(a, upper) + "-" + Recase(b, true)
    decreases |a|
  {
    if a == "" {
      assert a + "-" + b == "-" + b && ("-" + b)[1..] == b;
    } else {
      assert (a + "-" + b)[1..] == a[1..] + "-" + b;
      RecaseHyphen(a[1..], b, a[0] == '-');
    }
  }

  lemma HyphenIsCanonical(a: string, b: string)
    requires IsCanonical(a) && IsWord(b)
    ensures IsCanonical(a + "-" + b)
  {
    WordIsCanonical(b);
    RecaseHyphen(a, b, true);
  }

  /** One such word, or two joined by a hyphen. */
  ghost predicate InWords(name: string) {
    IsWord(name) || exists a, b :: IsWord(a) && IsWord(b) && name == a + "-" + b
  }

  lemma TwoWords(a: string, b: string, name: string)
    requires IsWord(a) && IsWord(b) && name == a + "-" + b
    ensures InWords(name)
  {
  }

  lemma WordsAreCanonical(name: string)
    requires InWords(name)
    ensures CanonicalKey(name) == name
  {
    if IsWord(name) {
      WordIsCanonical(name);
    } else {
      var a, b :| IsWord(a) && IsWord(b) && name == a + "-" + b;
      WordIsCanonical(a);
      HyphenIsCanonical(a, b);
    }
  }

  lemma ProxyNamesInWords()
    ensures InWords("Proxy-Connection") && InWords("Proxy-Authenticate") && InWords("Proxy-Authorization")
  {
    TwoWords("Proxy", "Connection", "Proxy-Connection");
    TwoWords("Proxy", "Authenticate", "Proxy-Authenticate");
    TwoWords("Proxy", "Authorization", "Proxy-Authorization");
  }

  lemma OtherNamesInWords()
    ensures InWords("Keep-Alive") && InWords("Transfer-Encoding")
    ensures InWords("Connection") && InWords("Te") && InWords("Trailer") && InWords("Upgrade")
  {
    TwoWords("Keep", "Alive", "Keep-Alive");
    TwoWords("Transfer", "Encoding", "Transfer-Encoding");
  }

  /** The list, name by name. */
  lemma FixedNames(name: string)
    ensures name in HOP_BY_HOP <==>
            || name == "Connection" || name == "Proxy-Connection" || name == "Keep-Alive"
            || name == "Proxy-Authenticate" || name == "Proxy-Authorization" || name == "Te"
            || name == "Trailer" || name == "Transfer-Encoding" || name == "Upgrade"
    ensures name in HOP_BY_HOP ==> InWords(name)
  {
    ProxyNamesInWords();
    OtherNamesInWords();
  }

  /** Its names are their own keys, so what is deleted is exactly these fields. */
  lemma FixedKeys(key: string)
    ensures IsHopByHop(key) <==> key in HOP_BY_HOP
  {
    forall name | name in HOP_BY_HOP
      ensures CanonicalKey(name) == name
    {
      FixedNames(name);
      WordsAreCanonical(name);
    }
  }

  lemma AuthorizationKey()
    ensures CanonicalKey("Authorization") == "Authorization"
  {
    WordIsCanonical("Authorization");
  }

  // ---- field names are case-insensitive ----

  lemma {:induction false} RecaseFolds(a: string, b: string, upper: bool)
    ensures Recase(a, upper) == Recase(b, upper) <==> Lower(a) == Lower(b)
    decreases |a|
  {
    if a != "" && b != "" {
      RecaseFolds(a[1..], b[1..], a[0] == '-');
      var x, y := Recase(a, upper), Recase(b, upper);
      assert x[1..] == Recase(a[1..], a[0] == '-') && y[1..] == Recase(b[1..], b[0] == '-');
      assert Lower(a)[1..] == Lower(a[1..]) && Lower(b)[1..] == Lower(b[1..]);
      assert x == [x[0]] + x[1..] && y == [y[0]] + y[1..];
      assert x[0] == y[0] <==> LowerChar(a[0]) == LowerChar(b[0]);
    }
  }

  /** Two tokens denote the same field exactly when they agree but for case. */
  lemma SameKeyIffSameName(a: string, b: string)
    requires IsToken(a) && IsToken(b)
    ensures CanonicalKey(a) == CanonicalKey(b) <==> Lower(a) == Lower(b)
  {
    RecaseFolds(a, b, true);
  }

  lemma ConnectionIsListed()
    ensures CanonicalKey("Connection") in HOP_BY_HOP
  {
    WordIsCanonical("Connection");
    FixedNames("Connection");
  }

  lemma NoConnectionLeft(before: Fields, once: Fields)
    requires IsFiltered(before, once)
    ensures ConnectionValues(once) == []
  {
    ConnectionIsListed();
  }

  /** Filtering again changes nothing: Connection went with the rest. */
  lemma FilterIdempotent(before: Fields, once: Fields, twice: Fields)
    requires IsFiltered(before, once) && IsFiltered(once, twice)
    ensures twice == once
  {
    NoConnectionLeft(before, once);
    forall key | key in once
      ensures key in twice
    {
      assert key in before && key !in HOP_BY_HOP;
      assert !NamedByConnection(once, key);
    }
  }
}
