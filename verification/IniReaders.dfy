/** The two line readers of the INI parser: fgets on a file, and ini_buffer_reader on a string. */
module IniReaders {
  import opened Basics
  import opened IniSyntax

  /** How many characters fgets takes: up to and including a newline, but at most limit. */
  function FgetsCount(text: string, limit: nat): (n: nat)
    ensures n <= |text| && n <= limit
    ensures text != [] && limit > 0 ==> n > 0
  {
    if text == [] || limit == 0 then 0 else if text[0] == '\n' then 1 else 1 + FgetsCount(text[1..], limit - 1)
  }

  /** The strings fgets(line, maxLine, file) returns one after the other. */
  function FgetsLines(text: string, maxLine: nat): seq<string>
    requires maxLine >= 2
    decreases |text|
  {
    if text == [] then []
    else
      var n := FgetsCount(text, maxLine - 1);
      [text[..n]] + FgetsLines(text[n..], maxLine)
  }

  // ----- ini_buffer_reader -----

  /** The number of characters the reader copies: up to a line end, but at most limit. */
  function BufferCount(text: string, limit: nat): (n: nat)
    ensures n <= |text| && n <= limit
    ensures n < limit && n < |text| ==> text[n] == '\n' || text[n] == '\r'
    ensures forall i :: 0 <= i < n ==> text[i] != '\n' && text[i] != '\r'
  {
    if text == [] || limit == 0 || text[0] == '\n' || text[0] == '\r' then 0 else 1 + BufferCount(text[1..], limit - 1)
  }

  /** How many characters one call consumes: the copied ones, one more whatever it is, and the second
    * half of a two-character line end. */
  function BufferTaken(text: string, num: nat): (n: nat)
    requires num >= 1
    ensures n >= 1
  {
    var idx := BufferCount(text, num - 1);
    var newline := idx < num - 1 && idx < |text|;
    if newline && idx + 1 < |text|
       && ((text[idx] == '\r' && text[idx + 1] == '\n') || (text[idx] == '\n' && text[idx + 1] == '\r')) then idx + 2
    else idx + 1
  }

  /** The text behind its first n characters, if it has that many. */
  function Drop(text: string, n: nat): string {
    if n <= |text| then text[n..] else []
  }

  lemma DropFrom(text: string, m: nat)
    ensures m <= |text| ==> |Drop(text, m)| == |text| - m
    ensures m <= |text| ==> forall i :: 0 <= i < |text| - m ==> Drop(text, m)[i] == text[m + i]
    ensures m >= |text| ==> Drop(text, m) == []
  {}

  lemma DropTwice(text: string, m: nat, n: nat)
    requires m <= |text|
    ensures Drop(text, m + n) == Drop(Drop(text, m), n)
  {}

  /** The strings ini_buffer_reader returns one after the other for a buffer. */
  function BufferLines(text: string, num: nat): seq<string>
    requires num >= 1
    decreases |text|
  {
    if text == [] then []
    else
      var n := BufferTaken(text, num);
      [text[..BufferCount(text, num - 1)]] + BufferLines(Drop(text, n), num)
  }

  lemma BufferLinesStep(text: string, num: nat)
    requires num >= 1
    ensures text == [] ==> BufferLines(text, num) == []
    ensures text != [] ==>
              BufferLines(text, num)
                   == [text[..BufferCount(text, num - 1)]] + BufferLines(Drop(text, BufferTaken(text, num)), num)
  {}

  class BufferCtx {
    const text: string
    var ptr: nat
    var bytesLeft: int

    /** What is still to be read. When the last line has no line end, bytesLeft ends at -1. */
    ghost predicate Valid()
      reads this
    {
      bytesLeft == |text| - ptr >= -1
    }

    function Rest(): string
      requires Valid()
      reads this
    {
      Drop(text, ptr)
    }

    constructor (text: string)
      ensures Valid() && Rest() == text
    {
      this.text, ptr, bytesLeft := text, 0, |text|;
      new;
      assert text[0..] == text;
    }

    /** The loop of ini_buffer_reader that looks for a line end. */
    method Scan(num: nat) returns (idx: nat, newline: char)
      requires Valid() && num >= 1 && bytesLeft > 0
      ensures idx == BufferCount(Rest(), num - 1) <= bytesLeft
      ensures newline == if idx < num - 1 && idx < |Rest()| then Rest()[idx] else '\0'
    {
      ghost var rest := Rest();
      idx, newline := 0, '\0';
      while idx < num - 1
        invariant 0 <= idx <= num - 1 && idx <= |rest| && newline == '\0'
        invariant BufferCount(rest, num - 1) == idx + BufferCount(rest[idx..], num - 1 - idx)
      {
        if idx == bytesLeft {
          break;
        }
        assert text[ptr + idx] == rest[idx];
        if text[ptr + idx] == '\n' {
          newline := '\n';
        } else if text[ptr + idx] == '\r' {
          newline := '\r';
        }
        if newline != '\0' {
          break;
        }
        assert rest[idx..][1..] == rest[idx + 1..];
        idx := idx + 1;
      }
    }

    /** ini_buffer_reader; None is the NULL at the end. The string is what is copied to the caller's buffer. */
    method Read(num: nat) returns (str: Option<string>)
      requires Valid() && num >= 1
      modifies this
      ensures Valid()
      ensures str == if old(Rest()) == [] then None else Some(old(Rest())[..BufferCount(old(Rest()), num - 1)])
      ensures old(Rest()) != [] ==> Rest() == Drop(old(Rest()), BufferTaken(old(Rest()), num))
    {
      hide BufferCount; hide Drop;
      DropFrom(text, ptr);
      if bytesLeft <= 0 {
        return None;
      }
      ghost var rest := Rest();
      var idx, newline := Scan(num);
      str := Some(text[ptr..ptr + idx]);
      assert text[ptr..ptr + idx] == rest[..idx];
      DropTwice(text, ptr, idx + 1);
      DropTwice(text, ptr, idx + 2);
      ptr := ptr + (idx + 1);
      bytesLeft := bytesLeft - (idx + 1);
      if newline != '\0' && bytesLeft > 0
         && ((newline == '\r' && text[ptr] == '\n') || (newline == '\n' && text[ptr] == '\r')) {
        bytesLeft := bytesLeft - 1;
        ptr := ptr + 1;
      }
    }
  }

  lemma DropShrinks(text: string, num: nat)
    requires num >= 1
    ensures text != [] ==> |Drop(text, BufferTaken(text, num))| < |text|
  {}

  /** All strings the reader returns until it returns NULL. */
  method ReadAll(ctx: BufferCtx, num: nat) returns (lines: seq<string>)
    requires ctx.Valid() && num >= 1
    modifies ctx
    ensures lines == BufferLines(old(ctx.Rest()), num)
  {
    hide BufferCount; hide BufferTaken; hide BufferLines; hide Drop;
    lines := [];
    var more := true;
    while more
      invariant ctx.Valid()
      invariant more ==> lines + BufferLines(ctx.Rest(), num) == BufferLines(old(ctx.Rest()), num)
      invariant !more ==> lines == BufferLines(old(ctx.Rest()), num)
      decreases more, |ctx.Rest()|
    {
      BufferLinesStep(ctx.Rest(), num);
      DropShrinks(ctx.Rest(), num);
      var str := ctx.Read(num);
      if str.None? {
        more := false;
      } else {
        lines := lines + [str.value];
      }
    }
  }
}
