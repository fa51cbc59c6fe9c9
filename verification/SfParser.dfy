/** The parser as it runs: one cursor moving over the input. Every method is tied to the
    parsing function of the text that remains. */
module SfParserRun {
  import opened Records
  import opened Text
  import opened StructuredFields
  import Base64

  class SfParser {
    const input: string
    var index: nat

    constructor (input: string)
      ensures this.input == input && Valid() && Rest() == input
    {
      this.input := input;
      index := 0;
    }

    ghost predicate Valid()
      reads this
    {
      index <= |input|
    }

    ghost function Rest(): string
      requires Valid()
      reads this
    {
      input[index..]
    }

    /** The method returned or threw what `p` says, and on success stopped where `p` stops. */
    ghost predicate Did<T>(r: Result<T, Error>, p: Parse<T>)
      reads this
    {
      Valid() && match p case Ok(v, rest) => r == Success(v) && Rest() == rest case Err(e) => r == Failure(e)
    }

    predicate Done()
      requires Valid()
      reads this
      ensures Done() <==> Rest() == ""
    {
      index >= |input|
    }

    /** Whether the next character is `c`. */
    predicate Peeks(c: char)
      requires Valid()
      reads this
      ensures Peeks(c) <==> StartsWith(Rest(), c)
    {
      index < |input| && input[index] == c
    }

    predicate PeeksAny(p: char -> bool)
      requires Valid()
      reads this
      ensures PeeksAny(p) <==> Rest() != "" && p(Rest()[0])
    {
      index < |input| && p(input[index])
    }

    method Advance()
      requires Valid() && Rest() != ""
      modifies this
      ensures Valid() && Rest() == old(Rest())[1..]
    {
      index := index + 1;
    }

    method Consume(c: char) returns (ok: bool)
      requires Valid()
      modifies this
      ensures Valid() && ok == StartsWith(old(Rest()), c) && index >= old(index)
      ensures Rest() == if ok then old(Rest())[1..] else old(Rest())
    {
      ok := Peeks(c);
      if ok {
        Advance();
      }
    }

    method TakeWhile(p: char -> bool) returns (taken: string)
      requires Valid()
      modifies this
      ensures Valid() && (taken, Rest()) == Span(p, old(Rest())) && index >= old(index)
    {
      var start := index;
      while PeeksAny(p)
        invariant start <= index <= |input| && forall c :: c in input[start..index] ==> p(c)
        decreases |input| - index
      {
        assert input[start..index + 1] == input[start..index] + [input[index]];
        Advance();
      }
      taken := input[start..index];
      assert input[start..] == taken + Rest();
      SpanOf(p, taken, Rest());
    }

    method SkipOwsp()
      requires Valid()
      modifies this
      ensures Valid() && Rest() == SkipBlanks(old(Rest())) && index >= old(index)
    {
      var _ := TakeWhile(Blank);
    }

    method ParseKeyText() returns (r: Result<string, Error>)
      requires Valid()
      modifies this
      ensures Did(r, ParseKey(old(Rest())))
    {
      var key := TakeWhile(KeyChar);
      r := if ValidKey(key) then Success(key) else Failure(InvalidKey(key));
    }

    method ParseStringText() returns (r: Result<string, Error>)
      requires Valid() && Peeks('"')
      modifies this
      ensures Did(r, ParseStringTail(old(Rest())[1..], ""))
    {
      Advance();
      ghost var all := Rest();
      var out := "";
      while !Done()
        invariant Valid() && ParseStringTail(all, "") == ParseStringTail(Rest(), out)
        decreases |input| - index
      {
        ghost var s := Rest();
        var c := input[index];
        Advance();
        if c == '"' {
          return Success(out);
        }
        if c == '\\' {
          if !Peeks('"') && !Peeks('\\') {
            return Failure(InvalidEscape);
          }
          out := out + [input[index]];
          Advance();
          assert Rest() == s[2..];
        } else {
          out := out + [c];
        }
      }
      r := Failure(UnterminatedString);
    }

    method ParseByteSequence() returns (r: Result<BareItem, Error>)
      requires Valid() && Peeks(':')
      modifies this
      ensures Did(r, ParseBytes(old(Rest())))
    {
      Advance();
      var encoded := TakeWhile(NotColon);
      if Done() {
        return Failure(UnterminatedBytes);
      }
      Advance();
      r := Success(Bytes(Base64.Decode(encoded)));
    }

    method ParseBoolean() returns (r: Result<BareItem, Error>)
      requires Valid() && Peeks('?')
      modifies this
      ensures Did(r, ParseBool(old(Rest())))
    {
      ghost var s := Rest();
      Advance();
      if !Peeks('0') && !Peeks('1') {
        return Failure(InvalidBoolean);
      }
      r := Success(Bool(Peeks('1')));
      Advance();
      assert Rest() == s[2..];
    }

    /** The digits before and after the point, with the cursor behind them. */
    method ScanNumber() returns (negative: bool, whole: string, fraction: string, ghost afterWhole: string)
      requires Valid()
      modifies this
      ensures Valid() && index >= old(index) && negative == StartsWith(old(Rest()), '-')
      ensures (whole, afterWhole) == Span(IsDigit, if negative then old(Rest())[1..] else old(Rest()))
      ensures (fraction, Rest()) == if StartsWith(afterWhole, '.') then Span(IsDigit, afterWhole[1..])
        else ("", afterWhole)
    {
      hide Span, IsDigit;
      negative := Consume('-');
      whole := TakeWhile(IsDigit);
      afterWhole := Rest();
      fraction := "";
      var point := Consume('.');
      if point {
        fraction := TakeWhile(IsDigit);
      }
    }

    method ParseNumberText() returns (r: Result<BareItem, Error>)
      requires Valid() && PeeksAny(c => c == '-' || IsDigit(c))
      modifies this
      ensures Did(r, ParseNumber(old(Rest())))
    {
      hide NumberOf, Span, ParseNumber, Finite;
      var start := index;
      ghost var s := Rest();
      var negative, whole, fraction, afterWhole := ScanNumber();
      var raw := input[start..index];
      SliceIs(input, start, index);
      NumberIs(s, if negative then s[1..] else s, whole, afterWhole, fraction, Rest());
      var value := NumberOf(negative, whole, fraction);
      if whole + fraction == "" || !Finite(value) {
        return Failure(InvalidNumber(raw));
      }
      r := Success(Num(value));
    }

    method ParseTokenText() returns (r: Result<BareItem, Error>)
      requires Valid()
      modifies this
      ensures Did(r, ParseToken(old(Rest())))
    {
      var token := TakeWhile(TokenChar);
      r := if ValidToken(token) then Success(Token(token)) else Failure(InvalidToken(token));
    }

    method ParseBareItem() returns (r: Result<BareItem, Error>)
      requires Valid()
      modifies this
      ensures Did(r, ParseBare(old(Rest())))
    {
      if Peeks('"') {
        var s := ParseStringText();
        r := if s.Success? then Success(Str(s.value)) else Failure(s.error);
      } else if Peeks(':') {
        r := ParseByteSequence();
      } else if Peeks('?') {
        r := ParseBoolean();
      } else if PeeksAny(c => c == '-' || IsDigit(c)) {
        r := ParseNumberText();
      } else {
        r := ParseTokenText();
      }
    }

    method ParseParameters() returns (r: Result<Params, Error>)
      requires Valid()
      modifies this
      ensures Did(r, ParseParams(old(Rest()), []))
    {
      hide ParseKey, ParseBare, Put;
      var ps: Params := [];
      while Peeks(';')
        invariant Valid() && ParseParams(old(Rest()), []) == ParseParams(Rest(), ps)
        decreases |input| - index
      {
        Advance();
        var key := ParseKeyText();
        if key.Failure? {
          return Failure(key.error);
        }
        var equals := Consume('=');
        if equals {
          var value := ParseBareItem();
          if value.Failure? {
            return Failure(value.error);
          }
          ps := Put(ps, key.value, value.value);
        } else {
          ps := Put(ps, key.value, Bool(true));
        }
      }
      r := Success(ps);
    }

    method ParseItemText() returns (r: Result<Item, Error>)
      requires Valid()
      modifies this
      ensures Did(r, ParseItem(old(Rest())))
    {
      hide ParseBare, ParseParams;
      var value := ParseBareItem();
      if value.Failure? {
        return Failure(value.error);
      }
      var ps := ParseParameters();
      if ps.Failure? {
        return Failure(ps.error);
      }
      r := Success(Item(value.value, if ps.value == [] then None else Some(ps.value)));
    }

    method ParseInnerListItems() returns (r: Result<seq<Item>, Error>)
      requires Valid()
      modifies this
      ensures Did(r, ParseItems(old(Rest()), []))
    {
      hide ParseItem, SkipBlanks, Span;
      ghost var all := Rest();
      var items: seq<Item> := [];
      while true
        invariant Valid() && ParseItems(all, []) == ParseItems(Rest(), items)
        decreases |Rest()|
      {
        ghost var s := Rest();
        SkipOwsp();
        if Peeks(')') {
          return Success(items);
        }
        var item := ParseItemText();
        if item.Failure? {
          return Failure(item.error);
        }
        items := items + [item.value];
        if Peeks(')') {
          return Success(items);
        }
        if !Peeks(' ') {
          return Failure(ExpectedInnerListSpace);
        }
        SkipOwsp();
      }
    }

    method ParseInnerListText() returns (r: Result<Member, Error>)
      requires Valid() && Peeks('(')
      modifies this
      ensures Did(r, ParseInnerList(old(Rest())))
    {
      hide ParseItems, ParseParams;
      Advance();
      var items := ParseInnerListItems();
      if items.Failure? {
        return Failure(items.error);
      }
      Advance();
      var ps := ParseParameters();
      r := if ps.Failure? then Failure(ps.error) else Success(InnerList(items.value, Some(ps.value)));
    }

    method ParseItemOrInnerListText() returns (r: Result<Member, Error>)
      requires Valid()
      modifies this
      ensures Did(r, ParseItemOrInnerList(old(Rest())))
    {
      hide ParseItem, ParseInnerList;
      if Peeks('(') {
        r := ParseInnerListText();
      } else {
        var item := ParseItemText();
        r := if item.Failure? then Failure(item.error) else Success(Plain(item.value));
      }
    }

    /** What follows a member's key. */
    method ParseMemberText() returns (r: Result<Member, Error>)
      requires Valid()
      modifies this
      ensures Did(r, ParseMemberValue(old(Rest())))
    {
      hide ParseItemOrInnerList, ParseParams;
      var equals := Consume('=');
      if equals {
        r := ParseItemOrInnerListText();
      } else {
        var ps := ParseParameters();
        r := if ps.Failure? then Failure(ps.error) else Success(Plain(Item(Bool(true), Some(ps.value))));
      }
    }

    method ParseDictMember(d: Dict) returns (r: Result<Dict, Error>)
      requires Valid()
      modifies this
      ensures Did(r, ParseMember(old(Rest()), d))
    {
      hide ParseKey, ParseMemberValue;
      var key := ParseKeyText();
      if key.Failure? {
        return Failure(key.error);
      }
      if Has(d, key.value) {
        return Failure(DuplicateKey(key.value));
      }
      var member := ParseMemberText();
      r := if member.Failure? then Failure(member.error) else Success(Put(d, key.value, member.value));
    }

    /** One turn of the loop over the members: `more` when another one is to follow. */
    method ParseNextMember(d: Dict) returns (next: Result<Dict, Error>, more: bool)
      requires Valid() && !Done()
      modifies this
      ensures Valid() && (more ==> next.Success? && |Rest()| < |old(Rest())|)
      ensures ParseMembers(old(Rest()), d) == if more then ParseMembers(Rest(), next.value) else next
    {
      MembersUnfold(Rest(), d);
      hide ParseMember, ParseMembers, SkipBlanks, Span;
      next := ParseDictMember(d);
      if next.Failure? {
        return next, false;
      }
      SkipOwsp();
      if Done() {
        return next, false;
      }
      var comma := Consume(',');
      if !comma {
        return Failure(Expected(',')), false;
      }
      SkipOwsp();
      more := true;
    }
  }

  /** The entry point: a trailing comma is accepted, a repeated key is not. */
  method ParseSf941Dict(value: string) returns (r: Result<Dict, Error>)
    ensures r == ParseDict(value)
  {
    DictUnfold(value);
    hide ParseMember, ParseMembers, ParseDict, SkipBlanks, Span;
    var parser := new SfParser(value);
    var d: Dict := [];
    parser.SkipOwsp();
    while !parser.Done()
      invariant parser.Valid() && ParseDict(value) == ParseMembers(parser.Rest(), d)
      decreases |parser.Rest()|
    {
      var next, more := parser.ParseNextMember(d);
      if !more {
        return next;
      }
      d := next.value;
    }
    MembersUnfold(parser.Rest(), d);
    r := Success(d);
  }

  lemma SliceIs(input: string, start: nat, index: nat)
    requires start <= index <= |input|
    ensures input[start..][..|input[start..]| - |input[index..]|] == input[start..index]
  {
  }

  /** A number from the pieces the cursor finds: digits, perhaps a point and more digits. */
  lemma NumberIs(s: string, digits: string, whole: string, afterWhole: string, fraction: string, rest: string)
    requires s != "" && (s[0] == '-' || IsDigit(s[0])) && |rest| <= |s|
    requires digits == (if StartsWith(s, '-') then s[1..] else s) && (whole, afterWhole) == Span(IsDigit, digits)
    requires (fraction, rest) == if StartsWith(afterWhole, '.') then Span(IsDigit, afterWhole[1..])
      else ("", afterWhole)
    ensures var raw := s[..|s| - |rest|];
            ParseNumber(s) == if whole + fraction == "" || !Finite(NumberOf(StartsWith(s, '-'), whole, fraction))
              then Err(InvalidNumber(raw))
              else Ok(Num(NumberOf(StartsWith(s, '-'), whole, fraction)), rest)
  {
    hide NumberOf, Span, Finite;
  }

  lemma DictUnfold(s: string)
    ensures ParseDict(s) == ParseMembers(SkipBlanks(s), [])
  {
  }

  /** One round of the dictionary loop. */
  lemma MembersUnfold(s: string, d: Dict)
    ensures ParseMembers(s, d) ==
      if s == "" then Success(d)
      else
        var m := ParseMember(s, d);
        if m.Err? then Failure(m.error)
        else
          var rest := SkipBlanks(m.rest);
          if rest == "" then Success(m.value)
          else if StartsWith(rest, ',') then ParseMembers(SkipBlanks(rest[1..]), m.value) else Failure(Expected(','))
  {
    hide ParseMember;
  }
}
