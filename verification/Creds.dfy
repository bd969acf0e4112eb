/** The creds file: printed by NewCreds, read back by ParseCredsString. */
module Creds {
  import opened Text

  const JWT_MARKER := "BEGIN NATS USER JWT"
  const NKEY_MARKER := "BEGIN USER NKEY SEED"
  const JWT_PLACE := "ENTER-JWT-HERE"
  const NKEY_PLACE := "ENTER-NKEY-HERE"
  const JWT_END := "------END NATS USER JWT------"
  const NKEY_END := "------END USER NKEY SEED------"

  const NOTE1 := "NKEY Seed printed below "
  const NOTE2 := "can be used to sign and "
  const NOTE3 := "prove identity."
  const NOTE4 := "NKEYs are sensitive and "
  const NOTE5 := "should be treated as secrets."

  function Stars(n: nat): string {
    seq(n, _ => '*')
  }

  /** The lines of the file with the two values filled in; the last one is empty, as the file ends in a line break. */
  function FileLines(jwt: string, nkey: string): seq<string> {
    ["-----" + JWT_MARKER + "-----",
     jwt,
     JWT_END,
     "",
     Stars(25) + " IMPORTANT " + Stars(25),
     NOTE1 + NOTE2 + NOTE3,
     NOTE4 + NOTE5,
     "",
     "-----" + NKEY_MARKER + "-----",
     nkey,
     NKEY_END,
     "",
     Stars(61),
     ""]
  }

  /** The marker lines as they are printed, and what the parser looks for in them. */
  lemma JwtMarkerLine(jwt: string, nkey: string)
    ensures FileLines(jwt, nkey)[0] == "-----BEGIN NATS USER JWT-----" && FileLines(jwt, nkey)[1] == jwt
    ensures JWT_MARKER == "BEGIN NATS USER JWT"
  {
  }

  lemma NkeyMarkerLine(jwt: string, nkey: string)
    ensures FileLines(jwt, nkey)[8] == "-----BEGIN USER NKEY SEED-----" && FileLines(jwt, nkey)[9] == nkey
    ensures NKEY_MARKER == "BEGIN USER NKEY SEED"
  {
  }

  const TEMPLATE := Join(FileLines(JWT_PLACE, NKEY_PLACE), '\n')

  function NewCreds(jwt: string, nkey: string): string {
    ReplaceAll(ReplaceAll(TEMPLATE, JWT_PLACE, jwt), NKEY_PLACE, nkey)
  }

  datatype Parsed = Ok(jwt: string, nkey: string) | Incomplete

  /** The values found in lines[..n], where a value is the line after its marker. */
  function Scan(lines: seq<string>, n: nat): (string, string)
    requires n <= |lines|
  {
    if n <= 1 then ("", "")
    else
      var (jwt, nkey) := Scan(lines, n - 1);
      if Contains(lines[n - 2], JWT_MARKER) then (lines[n - 1], nkey)
      else if Contains(lines[n - 2], NKEY_MARKER) then (jwt, lines[n - 1])
      else (jwt, nkey)
  }

  function Finish(found: (string, string)): Parsed {
    if found.0 == "" || found.1 == "" then Incomplete else Ok(found.0, found.1)
  }

  function Parse(creds: string): Parsed {
    Finish(Scan(Split(creds, '\n'), |Split(creds, '\n')|))
  }

  method ParseCredsString(creds: string) returns (r: Parsed)
    ensures r == Parse(creds)
  {
    var jwt, nkey := "", "";
    var lines := Split(creds, '\n');
    for i := 1 to |lines|
      invariant (jwt, nkey) == Scan(lines, i)
    {
      if Contains(lines[i - 1], JWT_MARKER) {
        jwt := lines[i];
      } else if Contains(lines[i - 1], NKEY_MARKER) {
        nkey := lines[i];
      }
    }
    if jwt == "" || nkey == "" {
      return Incomplete;
    }
    return Ok(jwt, nkey);
  }

  // ---- The fixed lines ----

  /** No placeholder without an H, no marker without a B. */
  lemma PlainLine(line: string)
    ensures 'H' !in line ==> !Contains(line, JWT_PLACE) && !Contains(line, NKEY_PLACE)
    ensures 'B' !in line ==> !Contains(line, JWT_MARKER) && !Contains(line, NKEY_MARKER)
  {
    assert JWT_PLACE[10] == 'H' && NKEY_PLACE[11] == 'H' && JWT_MARKER[0] == 'B' && NKEY_MARKER[0] == 'B';
    if 'H' !in line {
      LacksCharacter(line, JWT_PLACE, 'H');
      LacksCharacter(line, NKEY_PLACE, 'H');
    }
    if 'B' !in line {
      LacksCharacter(line, JWT_MARKER, 'B');
      LacksCharacter(line, NKEY_MARKER, 'B');
    }
  }

  /** Line breaks, and the characters without which there is no placeholder and no marker. */
  predicate Special(c: char) {
    c == '\n' || c == 'H' || c == 'B'
  }

  lemma Note1Lacks(c: char)
    requires Special(c)
    ensures c !in NOTE1
  {
  }

  lemma Note2Lacks(c: char)
    requires Special(c)
    ensures c !in NOTE2
  {
  }

  lemma Note3Lacks(c: char)
    requires Special(c)
    ensures c !in NOTE3
  {
  }

  lemma Note4Lacks(c: char)
    requires Special(c)
    ensures c !in NOTE4
  {
  }

  lemma Note5Lacks(c: char)
    requires Special(c)
    ensures c !in NOTE5
  {
  }

  lemma NotesLack(c: char)
    requires Special(c)
    ensures c !in NOTE1 + NOTE2 + NOTE3 && c !in NOTE4 + NOTE5
  {
    Note1Lacks(c);
    Note2Lacks(c);
    Note3Lacks(c);
    Note4Lacks(c);
    Note5Lacks(c);
  }

  lemma JwtLinesLack(c: char)
    requires Special(c)
    ensures c !in JWT_END && (c != 'B' ==> c !in "-----" + JWT_MARKER + "-----")
  {
  }

  lemma NkeyLinesLack(c: char)
    requires Special(c) || c == 'J'
    ensures c != 'J' ==> c !in NKEY_END
    ensures c != 'B' ==> c !in "-----" + NKEY_MARKER + "-----"
  {
  }

  lemma LineLacks(jwt: string, nkey: string, i: nat, c: char)
    requires i < 14 && i != 1 && i != 9 && Special(c) && (c == 'B' ==> i != 0 && i != 8)
    ensures c !in FileLines(jwt, nkey)[i]
  {
    NotesLack(c);
    JwtLinesLack(c);
    NkeyLinesLack(c);
  }

  lemma MarkerLine(line: string, i: nat)
    requires 'H' !in line && (i != 0 && i != 8 ==> 'B' !in line) && (i == 8 ==> 'J' !in line)
    requires (i == 0 ==> line == "-----" + JWT_MARKER + "-----") && (i == 8 ==> line == "-----" + NKEY_MARKER + "-----")
    ensures !Contains(line, JWT_PLACE) && !Contains(line, NKEY_PLACE)
    ensures Contains(line, JWT_MARKER) <==> i == 0
    ensures i != 0 ==> (Contains(line, NKEY_MARKER) <==> i == 8)
  {
    PlainLine(line);
    if i == 0 {
      ContainsMiddle("-----", JWT_MARKER, "-----");
    } else if i == 8 {
      ContainsMiddle("-----", NKEY_MARKER, "-----");
      assert JWT_MARKER[16] == 'J';
      LacksCharacter(line, JWT_MARKER, 'J');
    }
  }

  lemma FixedLines(jwt: string, nkey: string, i: nat)
    requires i < 14 && i != 1 && i != 9
    ensures var line := FileLines(jwt, nkey)[i];
            && '\n' !in line && 'H' !in line
            && !Contains(line, JWT_PLACE) && !Contains(line, NKEY_PLACE)
            && (Contains(line, JWT_MARKER) <==> i == 0)
            && (i != 0 ==> (Contains(line, NKEY_MARKER) <==> i == 8))
  {
    LineLacks(jwt, nkey, i, '\n');
    LineLacks(jwt, nkey, i, 'H');
    if i != 0 && i != 8 {
      LineLacks(jwt, nkey, i, 'B');
    }
    NkeyLinesLack('J');
    MarkerLine(FileLines(jwt, nkey)[i], i);
  }

  lemma LineKept(jwt: string, nkey: string, place: string, value: string, i: nat)
    requires place in {JWT_PLACE, NKEY_PLACE} && i < 14 && i != 1 && i != 9
    ensures ReplaceAll(FileLines(jwt, nkey)[i], place, value) == FileLines(jwt, nkey)[i]
  {
    FixedLines(jwt, nkey, i);
    ReplaceNothing(FileLines(jwt, nkey)[i], place, value);
  }

  /** Filling in one placeholder changes its own line, and whatever the other value says in its place. */
  lemma FillIn(jwt: string, nkey: string, place: string, value: string)
    requires place in {JWT_PLACE, NKEY_PLACE}
    ensures ReplaceAll(Join(FileLines(jwt, nkey), '\n'), place, value)
            == Join(FileLines(ReplaceAll(jwt, place, value), ReplaceAll(nkey, place, value)), '\n')
  {
    var lines := FileLines(jwt, nkey);
    var filled := FileLines(ReplaceAll(jwt, place, value), ReplaceAll(nkey, place, value));
    forall i | 0 <= i < 14 ensures ReplaceAll(lines[i], place, value) == filled[i] {
      if i != 1 && i != 9 {
        LineKept(jwt, nkey, place, value, i);
      }
    }
    ReplaceLines(lines, filled, '\n', place, value);
  }

  lemma ReplaceAllOfIt(s: string, replacement: string)
    requires s != []
    ensures ReplaceAll(s, s, replacement) == replacement
  {
    assert s[|s|..] == [];
    assert replacement + [] == replacement;
  }

  /** What NewCreds prints: the two values in their lines, except that an nkey placeholder inside the jwt
      is filled in too. */
  lemma Printed(jwt: string, nkey: string)
    ensures NewCreds(jwt, nkey) == Join(FileLines(ReplaceAll(jwt, NKEY_PLACE, nkey), nkey), '\n')
  {
    FillIn(JWT_PLACE, NKEY_PLACE, JWT_PLACE, jwt);
    ReplaceAllOfIt(JWT_PLACE, jwt);
    LacksCharacter(NKEY_PLACE, JWT_PLACE, 'J') by { assert JWT_PLACE[6] == 'J'; }
    ReplaceNothing(NKEY_PLACE, JWT_PLACE, jwt);
    FillIn(jwt, NKEY_PLACE, NKEY_PLACE, nkey);
    ReplaceAllOfIt(NKEY_PLACE, nkey);
  }

  /** What the parser finds in the file: a value that looks like a marker makes it take the line below. */
  lemma Found(jwt: string, nkey: string)
    ensures Scan(FileLines(jwt, nkey), 14) ==
            (if Contains(nkey, JWT_MARKER) then NKEY_END else if Contains(jwt, JWT_MARKER) then JWT_END else jwt,
             if !Contains(nkey, JWT_MARKER) && Contains(nkey, NKEY_MARKER) then NKEY_END else nkey)
  {
    var lines := FileLines(jwt, nkey);
    forall i | 0 <= i < 14 && i != 1 && i != 9
      ensures (Contains(lines[i], JWT_MARKER) <==> i == 0)
      ensures i != 0 ==> (Contains(lines[i], NKEY_MARKER) <==> i == 8)
    {
      FixedLines(jwt, nkey, i);
    }
    assert Scan(lines, 2) == (jwt, "");
    var third := Scan(lines, 3);
    assert third.0 == if Contains(jwt, JWT_MARKER) then JWT_END else jwt;
    assert Scan(lines, 4) == third;
    assert Scan(lines, 5) == third;
    assert Scan(lines, 6) == third;
    assert Scan(lines, 7) == third;
    assert Scan(lines, 8) == third;
    assert Scan(lines, 9) == third;
    assert Scan(lines, 10) == (third.0, nkey);
    var eleventh := Scan(lines, 11);
    assert Scan(lines, 12) == eleventh;
    assert Scan(lines, 13) == eleventh;
  }

  lemma {:induction false} ScanTakesLines(lines: seq<string>, n: nat)
    requires n <= |lines| && forall i :: 0 <= i < |lines| ==> '\n' !in lines[i]
    ensures '\n' !in Scan(lines, n).0 && '\n' !in Scan(lines, n).1
  {
    if n > 1 {
      ScanTakesLines(lines, n - 1);
    }
  }

  /** When the parser returns exactly what was printed. */
  predicate Survives(jwt: string, nkey: string) {
    && jwt != "" && nkey != "" && '\n' !in jwt && '\n' !in nkey
    && (if Contains(nkey, JWT_MARKER) then jwt == NKEY_END
        else !Contains(jwt, JWT_MARKER) && !Contains(nkey, NKEY_MARKER)
             && (Contains(jwt, NKEY_PLACE) ==> nkey == NKEY_PLACE))
  }

  lemma OneLineValues(jwt: string, nkey: string)
    requires '\n' !in jwt && '\n' !in nkey
    ensures Parse(NewCreds(jwt, nkey)) == Finish(Scan(FileLines(ReplaceAll(jwt, NKEY_PLACE, nkey), nkey), 14))
    ensures var jwt' := ReplaceAll(jwt, NKEY_PLACE, nkey);
            Scan(FileLines(jwt', nkey), 14) ==
            (if Contains(nkey, JWT_MARKER) then NKEY_END else if Contains(jwt', JWT_MARKER) then JWT_END else jwt',
             if !Contains(nkey, JWT_MARKER) && Contains(nkey, NKEY_MARKER) then NKEY_END else nkey)
  {
    var jwt' := ReplaceAll(jwt, NKEY_PLACE, nkey);
    Printed(jwt, nkey);
    ReplaceKeepsFree(jwt, NKEY_PLACE, nkey, '\n');
    forall i | 0 <= i < 14 ensures '\n' !in FileLines(jwt', nkey)[i] {
      if i != 1 && i != 9 {
        FixedLines(jwt', nkey, i);
      }
    }
    SplitOfJoin(FileLines(jwt', nkey), '\n');
    Found(jwt', nkey);
  }

  /** The lines below the two values contain neither a marker nor a placeholder. */
  lemma EndLines(nkey: string)
    ensures !Contains(JWT_END, JWT_MARKER) && !Contains(NKEY_END, JWT_MARKER) && !Contains(NKEY_END, NKEY_MARKER)
    ensures !Contains(JWT_END, NKEY_PLACE) && ReplaceAll(JWT_END, NKEY_PLACE, nkey) == JWT_END
  {
    FixedLines("", "", 2);
    FixedLines("", "", 10);
    ReplaceNothing(JWT_END, NKEY_PLACE, nkey);
  }

  /** Round trip, with its exact condition. */
  lemma RoundTrip(jwt: string, nkey: string)
    ensures Parse(NewCreds(jwt, nkey)) == Ok(jwt, nkey) <==> Survives(jwt, nkey)
  {
    var creds := NewCreds(jwt, nkey);
    var lines := Split(creds, '\n');
    JoinOfSplit(creds, '\n');
    ScanTakesLines(lines, |lines|);
    if '\n' !in jwt && '\n' !in nkey {
      OneLineValues(jwt, nkey);
      ReplaceIdentity(jwt, NKEY_PLACE, nkey);
      EndLines(nkey);
    }
  }

  /** The case every real pair of values is in. */
  lemma OrdinaryValuesSurvive(jwt: string, nkey: string)
    requires jwt != "" && nkey != "" && '\n' !in jwt && '\n' !in nkey
    requires !Contains(jwt, JWT_MARKER) && !Contains(jwt, NKEY_PLACE)
    requires !Contains(nkey, JWT_MARKER) && !Contains(nkey, NKEY_MARKER)
    ensures Parse(NewCreds(jwt, nkey)) == Ok(jwt, nkey)
  {
    RoundTrip(jwt, nkey);
  }
}
