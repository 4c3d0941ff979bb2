/**
 * What the flashcard and quiz generators take from the chat-completion
 * reply (backend/app/Services/FlashcardService.php and QuizService.php,
 * identical code in both): the reply text, the JSON slice from the first
 * `[` to the last `]`, and the length guard on the note's plain text. The
 * HTTP call is left out; the reply and `json_decode` of the slice are
 * parameters.
 */
module AiReply {
  import opened Wrappers
  import opened Strings

  /** One decoded element of the reply array; a field is None when the key is absent or null. */
  datatype Item = Item(
    question: Option<string>,
    answer: Option<string>,
    options: Option<seq<string>>,
    correctIndex: Option<int>
  )

  /** `json_decode($slice, true)`, None unless the slice decodes to an array. */
  type ItemDecoder = string -> Option<seq<Item>>

  /** The note text is rejected when falsy or under 10 bytes of UTF-8. */
  predicate TooShort(content: string) {
    !PhpTruthy(content) || Utf8Length(content) < 10
  }

  /** The falsy strings are both shorter than 10 bytes, so the guard is a pure length test. */
  lemma TooShortIsLength(content: string)
    ensures TooShort(content) <==> Utf8Length(content) < 10
  {
    if content == "0" {
      assert Utf8Length(content) == Utf8Width('0') + Utf8Length("") == 1;
    }
  }

  /** The reply's message content, `'[]'` when there is none. */
  function ReplyText(content: Option<string>): string {
    content.GetOr("[]")
  }

  /** PHP's `substr($s, $start, $length)` for an offset inside the string. */
  function Substr(s: string, start: nat, length: int): (r: string)
    requires start <= |s|
    ensures |r| <= |s| - start
    ensures r == s[start..start + |r|]
  {
    if length >= 0 then (if start + length <= |s| then s[start..start + length] else s[start..])
    else if |s| + length > start then s[start..|s| + length]
    else ""
  }

  /** The slice the services hand to `json_decode`, None when the reply lacks a `[` or a `]`. */
  function JsonSlice(raw: string): (r: Option<string>)
    ensures r.None? <==> '[' !in raw || ']' !in raw
  {
    var start, end := IndexOf(raw, '['), LastIndexOf(raw, ']');
    if start.Some? && end.Some? then Some(Substr(raw, start.value, end.value as int - start.value as int + 1))
    else None
  }

  /**
   * With a `[` before the last `]`, the slice runs from the first `[`
   * through the last `]`: it starts with `[`, ends with `]`, and nothing
   * outside it is a `]` after it or a `[` before it.
   */
  lemma SliceIsBracketed(raw: string)
    requires '[' in raw && ']' in raw
    requires IndexOf(raw, '[').value <= LastIndexOf(raw, ']').value
    ensures var s, e := IndexOf(raw, '[').value, LastIndexOf(raw, ']').value;
      && JsonSlice(raw) == Some(raw[s..e + 1])
      && '[' !in raw[..s] && ']' !in raw[e + 1..]
  {
  }

  /**
   * When the last `]` comes before the first `[`, PHP's negative-length
   * substr gives "" or a string that starts with `[` and holds no `]`:
   * never a JSON array, so the services then fail to decode.
   */
  lemma InvertedSliceIsNotAnArray(raw: string)
    requires '[' in raw && ']' in raw
    requires LastIndexOf(raw, ']').value < IndexOf(raw, '[').value
    ensures var r := JsonSlice(raw).value; r == [] || (r[0] == '[' && ']' !in r)
  {
    var s, e := IndexOf(raw, '[').value, LastIndexOf(raw, ']').value;
    InvertedSubstr(raw, s, e);
  }

  /** The substring from a `[` at `s` with a length that ends it before `s`, when no `]` follows `e`. */
  lemma InvertedSubstr(raw: string, s: nat, e: nat)
    requires e < s < |raw| && raw[s] == '[' && ']' !in raw[e + 1..]
    ensures var r := Substr(raw, s, e as int - s as int + 1); r == [] || (r[0] == '[' && ']' !in r)
  {
    var r := Substr(raw, s, e as int - s as int + 1);
    if r != [] {
      assert r == raw[s..s + |r|];
      var tail := raw[e + 1..];
      forall k | 0 <= k < |r| ensures r[k] != ']' {
        assert r[k] == tail[s + k - e - 1];
      }
      assert r[0] == raw[s];
    }
  }

  /** A reply without message content becomes the empty array's text. */
  lemma MissingReplyIsEmptyArray()
    ensures JsonSlice(ReplyText(None)) == Some("[]")
  {
    var t := ReplyText(None);
    assert t == "[]";
    assert IndexOf(t, '[') == Some(0);
    assert LastIndexOf(t, ']') == Some(1);
    assert Substr(t, 0, 2) == t[0..2] == t;
  }
}
