/** InvalidEntityException: the list of validation messages that explains why an
    entity was rejected, and the text that `getMessage` renders from it. */
module InvalidEntity {
  import opened Wrappers
  import opened Text

  /** A bean-validation constraint violation, seen through its message. */
  datatype Violation = Violation(message: string)

  const Header: string := "\nErros encontrados na validação da entidade: "
  const LineEnd: string := "  \n"
  const Trailer: string := "\n"

  /** One message per violation, in iteration order. */
  function ViolationMessages(violations: seq<Violation>): (ms: seq<string>)
    ensures |ms| == |violations|
    ensures forall i :: 0 <= i < |ms| ==> ms[i] == violations[i].message
  {
    seq(|violations|, i requires 0 <= i < |violations| => violations[i].message)
  }

  /** Each message followed by two spaces and a line break, in list order. */
  function MessageLines(ms: seq<string>): string
  {
    if |ms| == 0 then "" else MessageLines(ms[..|ms| - 1]) + ms[|ms| - 1] + LineEnd
  }

  /** The text `getMessage` returns for a message list. */
  function MessageText(ms: seq<string>): string
  {
    Header + MessageLines(ms) + Trailer
  }

  class InvalidEntityException {
    var mensagens: seq<string>

    /** The violation-set constructor: the messages are collected one by one. */
    constructor FromViolations(violations: seq<Violation>)
      ensures mensagens == ViolationMessages(violations)
    {
      mensagens := [];
      new;
      var i := 0;
      while i < |violations|
        invariant 0 <= i <= |violations|
        invariant mensagens == ViolationMessages(violations[..i])
      {
        mensagens := mensagens + [violations[i].message];
        i := i + 1;
      }
      assert violations[..i] == violations;
    }

    /** The constructors taking a ready list store it as given (the cause is not modelled). */
    constructor FromNonEmptyList(mensagens: seq<string>)
      requires |mensagens| > 0
      ensures this.mensagens == mensagens
    {
      this.mensagens := mensagens;
    }

    /** getMensagens. */
    function GetMensagens(): (ms: seq<string>)
      reads this
      ensures ms == mensagens
    {
      mensagens
    }

    /** getMessage: the header, each message on its own line, and a final line break. */
    method GetMessage() returns (message: string)
      ensures message == MessageText(mensagens)
    {
      message := Header;
      for i := 0 to |mensagens|
        invariant message == Header + MessageLines(mensagens[..i])
      {
        assert mensagens[..i + 1][..i] == mensagens[..i];
        message := message + mensagens[i] + LineEnd;
      }
      assert mensagens[..|mensagens|] == mensagens;
      message := message + Trailer;
    }
  }

  /** The list constructors read the first message for the exception's own detail text,
      so an empty list raises IndexOutOfBoundsException. */
  method FromList(mensagens: seq<string>) returns (r: Result<InvalidEntityException>)
    ensures r.Err? <==> |mensagens| == 0
    ensures r.Err? ==> r.error == IndexOutOfBounds
    ensures r.Ok? ==> fresh(r.value) && r.value.mensagens == mensagens
  {
    if |mensagens| == 0 {
      return Err(IndexOutOfBounds);
    }
    var e := new InvalidEntityException.FromNonEmptyList(mensagens);
    return Ok(e);
  }

  /** The single-message constructors wrap the message in a one-element list. */
  method FromMessage(mensagem: string) returns (e: InvalidEntityException)
    ensures fresh(e) && e.mensagens == [mensagem]
  {
    e := new InvalidEntityException.FromNonEmptyList([mensagem]);
  }

  lemma {:induction false} MessageLinesAppend(a: seq<string>, b: seq<string>)
    ensures MessageLines(a + b) == MessageLines(a) + MessageLines(b)
    decreases |b|
  {
    if |b| == 0 {
      assert a + b == a;
    } else {
      assert (a + b)[..|a + b| - 1] == a + b[..|b| - 1];
      MessageLinesAppend(a, b[..|b| - 1]);
    }
  }

  /** The rendered text lists the messages in order: every message appears at the place
      just after the lines of the messages before it. */
  lemma MessageTextListsEachMessage(ms: seq<string>, i: int)
    requires 0 <= i < |ms|
    ensures OccursAt(MessageText(ms), ms[i], |Header| + |MessageLines(ms[..i])|)
    ensures Contains(MessageText(ms), ms[i])
  {
    MessageLinesSplit(ms, i);
    var pre := Header + MessageLines(ms[..i]);
    var post := LineEnd + MessageLines(ms[i + 1..]) + Trailer;
    assert MessageText(ms) == pre + ms[i] + post;
    OccursBetween(pre, ms[i], post);
  }

  /** The lines of a list are those before a message, its own line, and those after it. */
  lemma MessageLinesSplit(ms: seq<string>, i: int)
    requires 0 <= i < |ms|
    ensures MessageLines(ms) == MessageLines(ms[..i]) + ms[i] + LineEnd + MessageLines(ms[i + 1..])
  {
    var before, after := ms[..i], ms[i + 1..];
    SplitAround(ms, i);
    MessageLinesAppend(before, [ms[i]] + after);
    MessageLinesAppend([ms[i]], after);
    MessageLinesSingle(ms[i]);
    Regroup(MessageLines(before), ms[i], LineEnd, MessageLines(after));
  }

  lemma SplitAround<T>(s: seq<T>, i: int)
    requires 0 <= i < |s|
    ensures s == s[..i] + ([s[i]] + s[i + 1..])
  {
  }

  lemma Regroup(a: string, b: string, c: string, d: string)
    ensures a + ((b + c) + d) == a + b + c + d
  {
  }

  lemma MessageLinesSingle(m: string)
    ensures MessageLines([m]) == m + LineEnd
  {
    assert [m][..0] == [];
    assert MessageLines([m][..0]) == "";
  }

  lemma OccursBetween(pre: string, sub: string, post: string)
    ensures OccursAt(pre + sub + post, sub, |pre|)
  {
    assert (pre + sub + post)[|pre|..|pre| + |sub|] == sub;
  }

  /** The rendered text has one line per message besides the header and the trailer:
      its length is fixed by the messages' lengths. */
  lemma {:induction false} MessageLinesLength(ms: seq<string>)
    ensures |MessageLines(ms)| == TotalLength(ms) + |LineEnd| * |ms|
    decreases |ms|
  {
    if |ms| > 0 {
      MessageLinesLength(ms[..|ms| - 1]);
    }
  }

  function TotalLength(ms: seq<string>): nat
  {
    if |ms| == 0 then 0 else TotalLength(ms[..|ms| - 1]) + |ms[|ms| - 1]|
  }
}
