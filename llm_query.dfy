/** `extract_qa` in `app/core/llm_query.py`: pulls the question and the
    answer out of the text an LLM generated, each by a case-insensitive
    regular-expression search `(?i)<key>:\s*(.+)` followed by `strip()`.
    The search is modelled step by step as Python's engine runs it: leftmost
    start, the label, a greedy `\s*`, then `.+` (any characters up to the end
    of the line), backing off through the whitespace when `.+` cannot start. */
module LlmQuery {
  import opened Text

  /** The result of a search: the captured group, or no match. */
  datatype Match = NoMatch | Group(text: string)

  const QuestionLabel: string := "question:"
  const AnswerLabel: string := "answer:"

  /** Under `(?i)`, the pattern character `p` (one of the label's
      characters) matches `c`: itself, its ASCII capital, and for `s` and `i`
      the extra letters Python's case-insensitive matching adds (long s, dotted
      capital I and dotless i). */
  predicate CaseMatches(p: char, c: char) {
    || c == p
    || ('a' <= p <= 'z' && c as int == p as int - 32)
    || (p == 's' && c == '\U{17f}')
    || (p == 'i' && (c == '\U{130}' || c == '\U{131}'))
  }

  /** The label `key` matches `text` at position `p`. */
  predicate LabelAt(text: string, p: nat, key: string) {
    p + |key| <= |text| && forall k :: 0 <= k < |key| ==> CaseMatches(key[k], text[p + k])
  }

  /** Where the greedy `\s*` that starts at `q` stops. */
  function SpaceEnd(text: string, q: nat): (w: nat)
    requires q <= |text|
    ensures q <= w <= |text|
    ensures forall k :: q <= k < w ==> IsSpace(text[k])
    ensures w < |text| ==> !IsSpace(text[w])
    decreases |text| - q
  {
    if q < |text| && IsSpace(text[q]) then SpaceEnd(text, q + 1) else q
  }

  /** Where the greedy `.+` that starts at `t` stops: the next line feed, or
      the end of the text. */
  function LineEnd(text: string, t: nat): (e: nat)
    requires t <= |text|
    ensures t <= e <= |text|
    ensures forall k :: t <= k < e ==> text[k] != '\n'
    ensures e < |text| ==> text[e] == '\n'
    decreases |text| - t
  {
    if t < |text| && text[t] != '\n' then LineEnd(text, t + 1) else t
  }

  /** `(.+)` tried after `\s*` gave back all but `t - q` of its characters:
      first at `t`, then at `t - 1`, down to `q`. */
  function Backtrack(text: string, q: nat, t: nat): (g: Match)
    requires q <= t <= |text|
    ensures g.Group? ==> g.text != [] && '\n' !in g.text
    decreases t
  {
    if t < |text| && text[t] != '\n' then Group(text[t..LineEnd(text, t)])
    else if t == q then NoMatch
    else Backtrack(text, q, t - 1)
  }

  /** `\s*(.+)` matched at `q`: the group, if the pattern can match there. */
  function Capture(text: string, q: nat): (g: Match)
    requires q <= |text|
    ensures g.Group? ==> g.text != [] && '\n' !in g.text
  {
    Backtrack(text, q, SpaceEnd(text, q))
  }

  /** `re.search` from position `p` on: the first start at which the whole
      pattern matches. */
  function Search(text: string, key: string, p: nat): (g: Match)
    requires p <= |text|
    ensures g.Group? ==> g.text != [] && '\n' !in g.text
    decreases |text| - p
  {
    if LabelAt(text, p, key) && Capture(text, p + |key|).Group? then Capture(text, p + |key|)
    else if p == |text| then NoMatch
    else Search(text, key, p + 1)
  }

  /** `match.group(1).strip() if match else ""`. */
  function Field(text: string, key: string): (f: string)
    ensures '\n' !in f && IsStripped(f)
  {
    match Search(text, key, 0)
    case NoMatch => ""
    case Group(g) => StripOmits(g, '\n'); Strip(g)
  }

  /** `extract_qa(response_text)`: the (question, answer) pair. Neither part
      spans a line or has surrounding whitespace. */
  function ExtractQa(responseText: string): (qa: (string, string))
    ensures '\n' !in qa.0 && IsStripped(qa.0)
    ensures '\n' !in qa.1 && IsStripped(qa.1)
  {
    (Field(responseText, QuestionLabel), Field(responseText, AnswerLabel))
  }

  // ---------------------------------------------------------------------
  // Lemmas
  // ---------------------------------------------------------------------

  /** Starts where the label does not match are skipped. */
  lemma {:induction false} SearchSkips(text: string, key: string, p: nat, p': nat)
    requires p <= p' <= |text|
    requires forall k :: p <= k < p' ==> !LabelAt(text, k, key)
    ensures Search(text, key, p) == Search(text, key, p')
    decreases p' - p
  {
    if p < p' {
      SearchSkips(text, key, p + 1, p');
    }
  }

  /** A text in which the label occurs nowhere yields `""`. */
  lemma NoLabelNoField(text: string, key: string)
    requires forall p :: 0 <= p <= |text| ==> !LabelAt(text, p, key)
    ensures Field(text, key) == ""
  {
    SearchSkips(text, key, 0, |text|);
    assert !LabelAt(text, |text|, key);
  }

  /** The first occurrence of the label decides the field, when something
      other than whitespace follows it: the field is the rest of that line,
      from the first non-whitespace character on (line feeds between the
      label and that character are skipped), stripped. */
  lemma FirstLabelDecides(text: string, key: string, p: nat)
    requires LabelAt(text, p, key)
    requires forall k :: 0 <= k < p ==> !LabelAt(text, k, key)
    requires SpaceEnd(text, p + |key|) < |text|
    ensures var w := SpaceEnd(text, p + |key|);
      Field(text, key) == Strip(text[w..LineEnd(text, w)])
  {
    SearchSkips(text, key, 0, p);
  }

  /** Case does not matter: the label matches wherever each of its
      characters appears in the text as itself or, for a letter, as its ASCII
      capital. */
  lemma LabelAnyCase(text: string, p: nat, key: string)
    requires p + |key| <= |text|
    requires forall k :: 0 <= k < |key| ==>
      text[p + k] == key[k] || ('a' <= key[k] <= 'z' && text[p + k] as int == key[k] as int - 32)
    ensures LabelAt(text, p, key)
  {
  }

  /** The label matches whatever its letter case: in `QUESTION: Why`
      the capitalised label is found, the space after it skipped, and the
      rest of the line (`Why`, from index 10 on) returned. */
  lemma CapitalisedLabel(text: string)
    requires text == "QUESTION: Why"
    ensures Field(text, QuestionLabel) == text[10..]
  {
    CapitalisedLabelFound(text);
    FirstLabelDecides(text, QuestionLabel, 0);
    CapitalisedLabelTail(text);
  }

  lemma CapitalisedLabelFound(text: string)
    requires text == "QUESTION: Why"
    ensures LabelAt(text, 0, QuestionLabel) && SpaceEnd(text, 9) == 10 && LineEnd(text, 10) == 13
  {
    assert SpaceEnd(text, 9) == 10;
    assert LineEnd(text, 10) == 13;
  }

  lemma CapitalisedLabelTail(text: string)
    requires text == "QUESTION: Why"
    ensures Strip(text[10..13]) == text[10..]
  {
    var w := text[10..13];
    assert w[0] == 'W' && w[2] == 'y';
    StripStripped(w);
  }

  /** When only whitespace follows the first occurrence of a label that ends
      in `:`, the field is `""`: either `.+` backs off onto a single
      whitespace character that strips away, or there is no match at all. */
  lemma BlankAfterLabel(text: string, key: string, p: nat)
    requires key != [] && key[|key| - 1] == ':'
    requires LabelAt(text, p, key)
    requires forall k :: 0 <= k < p ==> !LabelAt(text, k, key)
    requires forall k :: p + |key| <= k < |text| ==> IsSpace(text[k])
    ensures Field(text, key) == ""
  {
    var q := p + |key|;
    SearchSkips(text, key, 0, p);
    BlankCaptureStrips(text, q);
    if Capture(text, q).NoMatch? {
      NoLaterLabel(text, key, p);
    }
  }

  /** What `.+` captures inside trailing whitespace strips to `""`. */
  lemma BlankCaptureStrips(text: string, q: nat)
    requires q <= |text|
    requires forall k :: q <= k < |text| ==> IsSpace(text[k])
    ensures Capture(text, q).Group? ==> Strip(Capture(text, q).text) == ""
  {
    var g := Capture(text, q);
    if g.Group? {
      BlankCapture(text, q, SpaceEnd(text, q));
      AllSpaceStrips(g.text);
    }
  }

  /** Past a label followed only by whitespace, the search finds nothing. */
  lemma NoLaterLabel(text: string, key: string, p: nat)
    requires key != [] && key[|key| - 1] == ':'
    requires LabelAt(text, p, key)
    requires forall k :: p + |key| <= k < |text| ==> IsSpace(text[k])
    ensures Search(text, key, p + 1) == NoMatch
  {
    forall k | p < k <= |text| ensures !LabelAt(text, k, key) {
      NoLabelInBlank(text, key, p + |key|, k);
    }
    SearchSkips(text, key, p + 1, |text|);
  }

  /** A label that ends in `:` cannot end inside trailing whitespace. */
  lemma NoLabelInBlank(text: string, key: string, q: nat, k: nat)
    requires key != [] && key[|key| - 1] == ':'
    requires forall j :: q <= j < |text| ==> IsSpace(text[j])
    requires q < k + |key|
    ensures !LabelAt(text, k, key)
  {
    if k + |key| <= |text| {
      assert IsSpace(text[k + |key| - 1]);
      assert !CaseMatches(key[|key| - 1], text[k + |key| - 1]);
    }
  }

  /** Inside a run of whitespace that reaches the end of the text, whatever
      `.+` captures is whitespace. */
  lemma {:induction false} BlankCapture(text: string, q: nat, t: nat)
    requires q <= t <= |text|
    requires forall k :: q <= k < |text| ==> IsSpace(text[k])
    ensures var g := Backtrack(text, q, t);
      g.Group? ==> forall c :: c in g.text ==> IsSpace(c)
    decreases t
  {
    if t < |text| && text[t] != '\n' {
      var e := LineEnd(text, t);
      forall c | c in text[t..e] ensures IsSpace(c) {
        var k :| 0 <= k < e - t && text[t..e][k] == c;
        assert text[t + k] == c;
      }
    } else if t > q {
      BlankCapture(text, q, t - 1);
    }
  }

  lemma AllSpaceStrips(s: string)
    requires forall c :: c in s ==> IsSpace(c)
    ensures Strip(s) == ""
  {
  }
}
