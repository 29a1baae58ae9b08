/** The tokeniser of lunchbox::fork: a command string becomes its arguments. */
module CommandLine {

  const NUL := '\0'

  /** What a C string starting with these characters reads as. */
  function CString(s: string): (r: string)
    ensures r <= s && NUL !in r && (|r| < |s| ==> s[|r|] == NUL)
  {
    if s == [] || s[0] == NUL then [] else [s[0]] + CString(s[1..])
  }

  lemma {:induction false} CStringBefore(s: string, n: nat)
    requires n < |s| && s[n] == NUL
    ensures CString(s) == CString(s[..n])
  {
    if s[0] != NUL {
      assert s[1..][..n - 1] == s[..n][1..];
      CStringBefore(s[1..], n - 1);
    }
  }

  lemma CStringIdentity(s: string)
    ensures CString(s) == s <==> NUL !in s
  {
  }

  /** The tokens of the text still to be read, given whether a quote is open and
      the characters collected for the current token. */
  function Scan(rest: string, inTicks: bool, token: string): seq<string>
    decreases |rest|
  {
    if rest == [] then
      if token == [] then [] else [CString(token)]
    else if rest[0] == ' ' then
      if inTicks then Scan(rest[1..], inTicks, token + [' '])
      else [CString(token)] + Scan(rest[1..], inTicks, [])
    else if rest[0] == '"' then
      Scan(rest[1..], !inTicks, token)
    else if rest[0] == '\\' then
      if |rest| == 1 then Scan([], inTicks, token + [NUL])
      else Scan(rest[2..], inTicks, token + [rest[1]])
    else
      Scan(rest[1..], inTicks, token + [rest[0]])
  }

  function Tokens(command: string): seq<string> {
    Scan(command, false, [])
  }

  // ---- the loop over a character buffer ------------------------------------------

  /** string[i] of a std::string's c_str(): readable up to and including its length. */
  function CharAt(s: string, i: nat): char
    requires i <= |s|
  {
    if i < |s| then s[i] else NUL
  }

  function From(s: string, i: nat): string {
    if i < |s| then s[i..] else []
  }

  /** std::string(&buffer[0]): read up to the first NUL, which must lie in the buffer. */
  method ReadCString(buffer: array<char>, ghost end: nat) returns (s: string)
    requires end < buffer.Length && buffer[end] == NUL
    ensures s == CString(buffer[..end])
  {
    var n := 0;
    while buffer[n] != NUL
      invariant n <= end && NUL !in buffer[..n]
      decreases end - n
    {
      n := n + 1;
    }
    s := buffer[..n];
    CStringBefore(buffer[..end + 1], n);
    CStringBefore(buffer[..end + 1], end);
    CStringIdentity(s);
    assert buffer[..end + 1][..n] == s;
    assert buffer[..end + 1][..end] == buffer[..end];
  }

  /** Every access to the buffer of length + 1 characters is within it, whatever the
      input, and the loop computes Tokens. */
  method BuildCommandLine(command: string) returns (commandLine: seq<string>)
    ensures commandLine == Tokens(command)
  {
    commandLine := [];
    var length := |command|;
    var inTicks := false;
    var bufferPos := 0;
    var buffer := new char[length + 1];
    var i := 0;
    while i < length
      invariant 0 <= bufferPos <= i && bufferPos <= length
      invariant Tokens(command) == commandLine + Scan(From(command, i), inTicks, buffer[..bufferPos])
    {
      var c := CharAt(command, i);
      ghost var token := buffer[..bufferPos];
      assert From(command, i)[1..] == From(command, i + 1);
      if c == ' ' {
        if inTicks {
          buffer[bufferPos] := c;
          bufferPos := bufferPos + 1;
          assert buffer[..bufferPos] == token + [c];
        } else {
          buffer[bufferPos] := NUL;
          assert buffer[..bufferPos] == token;
          var s := ReadCString(buffer, bufferPos);
          commandLine := commandLine + [s];
          bufferPos := 0;
          assert buffer[..bufferPos] == [];
        }
      } else if c == '"' {
        inTicks := !inTicks;
      } else if c == '\\' {
        assert i + 1 < length ==> From(command, i)[2..] == From(command, i + 2);
        i := i + 1;
        buffer[bufferPos] := CharAt(command, i);
        bufferPos := bufferPos + 1;
        assert buffer[..bufferPos] == token + [CharAt(command, i)];
      } else {
        buffer[bufferPos] := c;
        bufferPos := bufferPos + 1;
        assert buffer[..bufferPos] == token + [c];
      }
      i := i + 1;
    }
    if bufferPos > 0 {
      ghost var token := buffer[..bufferPos];
      buffer[bufferPos] := NUL;
      assert buffer[..bufferPos] == token;
      var s := ReadCString(buffer, bufferPos);
      commandLine := commandLine + [s];
    }
  }

  // ---- round trips ---------------------------------------------------------------

  /** Outside quotes, `text` adds exactly `arg` to the token being read. */
  ghost predicate Spells(text: string, arg: string) {
    forall rest, token :: Scan(text + rest, false, token) == Scan(rest, false, token + arg)
  }

  function Join(texts: seq<string>): string {
    if texts == [] then [] else if |texts| == 1 then texts[0] else texts[0] + " " + Join(texts[1..])
  }

  /** What tokenising gives back: a last argument that is empty is dropped, and each
      of the others is cut at its first NUL. */
  function Recovered(args: seq<string>): seq<string> {
    if args == [] || args == [[]] then [] else [CString(args[0])] + Recovered(args[1..])
  }

  lemma {:induction false} JoinRecovered(texts: seq<string>, args: seq<string>)
    requires |texts| == |args| && forall k :: 0 <= k < |args| ==> Spells(texts[k], args[k])
    ensures Tokens(Join(texts)) == Recovered(args)
  {
    if |args| == 1 {
      assert texts[0] + [] == texts[0] && [] + args[0] == args[0];
      assert Scan(texts[0] + [], false, []) == Scan([], false, [] + args[0]);
    } else if |args| > 1 {
      var rest := " " + Join(texts[1..]);
      assert Join(texts) == texts[0] + rest && [] + args[0] == args[0];
      assert Scan(texts[0] + rest, false, []) == Scan(rest, false, [] + args[0]);
      assert rest[1..] == Join(texts[1..]);
      JoinRecovered(texts[1..], args[1..]);
    }
  }

  /** The lists that survive joining: no NUL inside, and no empty last argument. */
  predicate Representable(args: seq<string>) {
    (forall k :: 0 <= k < |args| ==> NUL !in args[k]) && (args != [] ==> args[|args| - 1] != [])
  }

  lemma {:induction false} RecoveredIff(args: seq<string>)
    ensures Recovered(args) == args <==> Representable(args)
  {
    if args != [] && args != [[]] {
      var tail := args[1..];
      RecoveredIff(tail);
      CStringIdentity(args[0]);
      assert args == [args[0]] + tail;
      assert Recovered(args) == args <==> CString(args[0]) == args[0] && Recovered(tail) == tail;
      RepresentableTail(args[0], tail);
    }
  }

  lemma RepresentableTail(head: string, tail: seq<string>)
    requires tail == [] ==> head != []
    ensures Representable([head] + tail) <==> NUL !in head && Representable(tail)
  {
    var args := [head] + tail;
    if Representable(args) {
      assert NUL !in args[0];
      assert forall k :: 0 <= k < |tail| ==> tail[k] == args[k + 1];
    }
    if NUL !in head && Representable(tail) {
      assert forall k :: 1 <= k < |args| ==> args[k] == tail[k - 1];
    }
  }

  /** Backslash before every space, quote and backslash. */
  function Escape(arg: string): string {
    if arg == [] then []
    else if arg[0] in {' ', '"', '\\'} then ['\\', arg[0]] + Escape(arg[1..])
    else [arg[0]] + Escape(arg[1..])
  }

  /** Inside quotes a space needs no backslash. */
  function EscapeInTicks(arg: string): string {
    if arg == [] then []
    else if arg[0] in {'"', '\\'} then ['\\', arg[0]] + EscapeInTicks(arg[1..])
    else [arg[0]] + EscapeInTicks(arg[1..])
  }

  function Quote(arg: string): string {
    ['"'] + EscapeInTicks(arg) + ['"']
  }

  lemma {:induction false} EscapeScans(arg: string, rest: string, token: string)
    ensures Scan(Escape(arg) + rest, false, token) == Scan(rest, false, token + arg)
    decreases |arg|
  {
    var text := Escape(arg) + rest;
    if arg == [] {
      assert text == rest && token + arg == token;
    } else {
      var tail := Escape(arg[1..]) + rest;
      if arg[0] in {' ', '"', '\\'} {
        assert text[2..] == tail;
      } else {
        assert text[1..] == tail;
      }
      EscapeScans(arg[1..], rest, token + [arg[0]]);
      assert token + [arg[0]] + arg[1..] == token + arg;
    }
  }

  lemma {:induction false} EscapeInTicksScans(arg: string, rest: string, token: string)
    ensures Scan(EscapeInTicks(arg) + rest, true, token) == Scan(rest, true, token + arg)
    decreases |arg|
  {
    var text := EscapeInTicks(arg) + rest;
    if arg == [] {
      assert text == rest && token + arg == token;
    } else {
      var tail := EscapeInTicks(arg[1..]) + rest;
      if arg[0] in {'"', '\\'} {
        assert text[2..] == tail;
      } else {
        assert text[1..] == tail;
      }
      EscapeInTicksScans(arg[1..], rest, token + [arg[0]]);
      assert token + [arg[0]] + arg[1..] == token + arg;
    }
  }

  lemma EscapeSpells(arg: string)
    ensures Spells(Escape(arg), arg)
  {
    forall rest, token ensures Scan(Escape(arg) + rest, false, token) == Scan(rest, false, token + arg) {
      EscapeScans(arg, rest, token);
    }
  }

  lemma QuoteSpells(arg: string)
    ensures Spells(Quote(arg), arg)
  {
    forall rest, token ensures Scan(Quote(arg) + rest, false, token) == Scan(rest, false, token + arg) {
      var inner := ['"'] + rest;
      assert (Quote(arg) + rest)[1..] == EscapeInTicks(arg) + inner;
      EscapeInTicksScans(arg, inner, token);
      assert inner[1..] == rest;
    }
  }

  /** The arguments, each escaped or quoted as `quoted` says, joined by single spaces. */
  function Encode(args: seq<string>, quoted: seq<bool>): string
    requires |args| == |quoted|
  {
    Join(Texts(args, quoted))
  }

  function Texts(args: seq<string>, quoted: seq<bool>): seq<string>
    requires |args| == |quoted|
  {
    seq(|args|, k requires 0 <= k < |args| => if quoted[k] then Quote(args[k]) else Escape(args[k]))
  }

  /** Tokenising what was encoded gives exactly the arguments back if and only if
      none of them holds a NUL and the last one, if any, is not empty. */
  lemma RoundTripIff(args: seq<string>, quoted: seq<bool>)
    requires |args| == |quoted|
    ensures Tokens(Encode(args, quoted)) == args <==> Representable(args)
    ensures Tokens(Encode(args, quoted)) == Recovered(args)
  {
    var texts := Texts(args, quoted);
    forall k | 0 <= k < |args| ensures Spells(texts[k], args[k]) {
      EscapeSpells(args[k]);
      QuoteSpells(args[k]);
    }
    JoinRecovered(texts, args);
    RecoveredIff(args);
  }

  /** An explicitly quoted empty last argument is lost. */
  lemma EmptyLastArgumentIsLost()
    ensures Encode(["a", ""], [false, true]) == "a \"\"" && Tokens("a \"\"") == ["a"]
  {
    var texts := Texts(["a", ""], [false, true]);
    assert Escape("a") == "a" by {
      assert Escape("a") == ['a'] + Escape("a"[1..]);
    }
    assert Quote("") == "\"\"";
    assert texts[0] == "a" && texts[1] == "\"\"";
    assert texts == ["a", "\"\""];
    assert Join(texts[1..]) == "\"\"";
    RoundTripIff(["a", ""], [false, true]);
    assert Recovered(["a", ""]) == ["a"] + Recovered([""]);
  }

  // ---- what the tokeniser can produce --------------------------------------------

  predicate NulFree(args: seq<string>) {
    forall k :: 0 <= k < |args| ==> NUL !in args[k]
  }

  lemma {:induction false} TokensAreNulFree(rest: string, inTicks: bool, token: string)
    ensures NulFree(Scan(rest, inTicks, token))
    decreases |rest|
  {
    if rest != [] {
      if rest[0] == ' ' {
        TokensAreNulFree(rest[1..], inTicks, if inTicks then token + [' '] else []);
      } else if rest[0] == '"' {
        TokensAreNulFree(rest[1..], !inTicks, token);
      } else if rest[0] != '\\' {
        TokensAreNulFree(rest[1..], inTicks, token + [rest[0]]);
      } else if |rest| == 1 {
        TokensAreNulFree([], inTicks, token + [NUL]);
      } else {
        TokensAreNulFree(rest[2..], inTicks, token + [rest[1]]);
      }
    }
  }

  /** A command for any list of arguments: each escaped, and a backslash alone for a
      last one that is empty, since it takes the NUL behind the end of the string. */
  function CommandFor(args: seq<string>): string {
    if args == [] then []
    else if args == [[]] then "\\"
    else if |args| == 1 then Escape(args[0])
    else Escape(args[0]) + " " + CommandFor(args[1..])
  }

  lemma {:induction false} EscapeIsNulFree(arg: string)
    requires NUL !in arg
    ensures NUL !in Escape(arg)
  {
    if arg != [] {
      EscapeIsNulFree(arg[1..]);
    }
  }

  lemma {:induction false} CommandForTokens(args: seq<string>)
    requires NulFree(args)
    ensures Tokens(CommandFor(args)) == args && NUL !in CommandFor(args)
  {
    if args == [[]] {
      assert Tokens("\\") == Scan([], false, [] + [NUL]);
      assert [] + [NUL] == [NUL] && CString([NUL]) == [];
    } else if args != [] {
      var arg := args[0];
      var rest := if |args| == 1 then [] else " " + CommandFor(args[1..]);
      EscapeIsNulFree(arg);
      EscapeScans(arg, rest, []);
      CStringIdentity(arg);
      assert CommandFor(args) == Escape(arg) + rest && [] + arg == arg;
      if |args| > 1 {
        CommandForTokens(args[1..]);
        assert rest[1..] == CommandFor(args[1..]);
      }
      assert args == [arg] + args[1..];
    }
  }

  /** The tokeniser can produce exactly the lists of arguments without a NUL, an
      empty last one included, and that from commands without a NUL. */
  lemma ProducibleIff(args: seq<string>)
    ensures (exists command :: Tokens(command) == args) <==> NulFree(args)
    ensures (exists command :: NUL !in command && Tokens(command) == args) <==> NulFree(args)
  {
    if NulFree(args) {
      CommandForTokens(args);
    }
    forall command | Tokens(command) == args ensures NulFree(args) {
      TokensAreNulFree(command, false, []);
    }
  }

  /** An empty last argument after all: a trailing backslash makes one. */
  lemma TrailingBackslash()
    ensures Tokens("a \\") == ["a", ""]
  {
    var args := ["a", ""];
    assert args[1..] == [[]];
    assert Escape("a") == ['a'] + Escape("a"[1..]);
    assert CommandFor(args) == "a \\";
    CommandForTokens(args);
  }

  // ---- backslashes and open quotes -----------------------------------------------

  /** A backslash before every character. */
  function EscapeAll(arg: string): string {
    if arg == [] then [] else ['\\', arg[0]] + EscapeAll(arg[1..])
  }

  /** A backslash makes any character stand for itself, inside quotes and outside. */
  lemma {:induction false} BackslashSpells(arg: string, rest: string, inTicks: bool, token: string)
    ensures Scan(EscapeAll(arg) + rest, inTicks, token) == Scan(rest, inTicks, token + arg)
    decreases |arg|
  {
    var text := EscapeAll(arg) + rest;
    if arg == [] {
      assert text == rest && token + arg == token;
    } else {
      assert text[2..] == EscapeAll(arg[1..]) + rest;
      BackslashSpells(arg[1..], rest, inTicks, token + [arg[0]]);
      assert token + [arg[0]] + arg[1..] == token + arg;
    }
  }

  /** A quote that is never closed is closed by the end of the command. */
  lemma OpenQuote(arg: string)
    ensures Tokens(['"'] + EscapeInTicks(arg)) == Tokens(Quote(arg))
    ensures Tokens(['"'] + EscapeInTicks(arg)) == if arg == [] then [] else [CString(arg)]
  {
    var open := ['"'] + EscapeInTicks(arg);
    EscapeInTicksScans(arg, [], []);
    assert open[1..] == EscapeInTicks(arg) + [] && [] + arg == arg;
    QuoteSpells(arg);
    assert Quote(arg) + [] == Quote(arg);
    assert Scan(Quote(arg) + [], false, []) == Scan([], false, [] + arg);
  }
}
