/**
 * The pipeline-parsing callback that registers `IRBBLabelPass`: it asks
 * `MatchParamPass` about each pass name of a `-passes=` pipeline, adds the pass
 * on success, and otherwise decides from the error text whether to complain.
 */
module Registration {
  import opened Wrappers
  import opened Strings
  import opened PassOptions

  /** What the callback does with one pipeline element. */
  datatype Outcome =
    | Added(options: seq<Opt>)   // the pass goes into the pass manager (the callback returns true)
    | Reported(message: string)  // an error line goes to the error stream (the callback returns false)
    | Declined                   // silently left to other plugins (the callback returns false)

  const ReportPrefix: string := "ir-bb-label-pass param parse error: "

  /** The text `MatchParamPass` gives for a name of some other pass. */
  const NotMatchedText: string := "name not matched"

  /** `s` contains `t` starting at index `k`. */
  lemma {:induction false} ContainsAt(s: string, t: string, k: nat)
    requires k + |t| <= |s| && s[k..k + |t|] == t
    ensures Contains(s, t)
  {
    if k == 0 {
      assert s[..|t|] == t;
    } else {
      assert s[1..][k - 1..k - 1 + |t|] == s[k..k + |t|];
      ContainsAt(s[1..], t, k - 1);
    }
  }

  /**
   * The callback as written: an error is kept quiet whenever its text contains
   * "name not matched", whichever error it is.
   */
  function CallbackAsWritten(name: string): (r: Outcome)
    ensures r.Added? <==> MatchParamPass(name, IRBBLabelPassName, IRBBLabelPassOptions).Success?
    ensures r.Added? ==> r.options == MatchParamPass(name, IRBBLabelPassName, IRBBLabelPassOptions).value
    ensures r.Reported? ==> var e := MatchParamPass(name, IRBBLabelPassName, IRBBLabelPassOptions).error;
                            !Contains(Message(e), NotMatchedText) && r.message == ReportPrefix + Message(e)
  {
    match MatchParamPass(name, IRBBLabelPassName, IRBBLabelPassOptions)
    case Success(opts) => Added(opts)
    case Failure(e) =>
      if Contains(Message(e), NotMatchedText) then Declined else Reported(ReportPrefix + Message(e))
  }

  /** A bracketed body free of `;` and `=` and not padded with white space is one malformed item. */
  lemma OneMalformedItem(p: string)
    requires p != [] && ';' !in p && '=' !in p && Trim(p) == p
    ensures MatchParamPass(IRBBLabelPassName + "<" + p + ">", IRBBLabelPassName, IRBBLabelPassOptions)
         == Failure(InvalidOption(p))
  {
    BracketedBody(IRBBLabelPassName, p, IRBBLabelPassOptions);
    assert SplitAll(p, ';') == [p];
    assert NonEmpty([p]) == [p] by {
      assert NonEmpty([p][1..]) == [];
    }
    assert Items(p) == [p];
    assert Classify(p) == Malformed(p);
    assert ClassifyAll([p]) == [Malformed(p)];
  }

  /** That text, used as a parameter body, is a single malformed item. */
  lemma NotMatchedTextIsOneItem()
    ensures NotMatchedText != [] && ';' !in NotMatchedText && '=' !in NotMatchedText
    ensures Trim(NotMatchedText) == NotMatchedText
  {
    assert TrimLeft(NotMatchedText) == NotMatchedText;
    assert TrimRight(NotMatchedText) == NotMatchedText;
  }

  /** The error for that item repeats the text, so its message contains it. */
  lemma InvalidNotMatchedMentions()
    ensures Contains(Message(InvalidOption(NotMatchedText)), NotMatchedText)
  {
    var msg := Message(InvalidOption(NotMatchedText));
    assert msg[16..16 + |NotMatchedText|] == NotMatchedText;
    ContainsAt(msg, NotMatchedText, 16);
  }

  /**
   * The pass name matched, the parameter body is wrong, and still nothing is
   * reported: the body's own text puts "name not matched" into the message.
   */
  lemma SilencedParseError()
    ensures var name := IRBBLabelPassName + "<" + NotMatchedText + ">";
            MatchParamPass(name, IRBBLabelPassName, IRBBLabelPassOptions) == Failure(InvalidOption(NotMatchedText))
            && CallbackAsWritten(name) == Declined
  {
    NotMatchedTextIsOneItem();
    OneMalformedItem(NotMatchedText);
    InvalidNotMatchedMentions();
  }

  /** The callback as evidently meant: quiet only when the name is not this pass's at all. */
  function Callback(name: string): (r: Outcome)
    ensures r.Added? <==> MatchParamPass(name, IRBBLabelPassName, IRBBLabelPassOptions).Success?
    ensures r.Added? ==> r.options == MatchParamPass(name, IRBBLabelPassName, IRBBLabelPassOptions).value
    ensures r.Reported? ==> var e := MatchParamPass(name, IRBBLabelPassName, IRBBLabelPassOptions).error;
                            e != NameNotMatched && r.message == ReportPrefix + Message(e)
  {
    match MatchParamPass(name, IRBBLabelPassName, IRBBLabelPassOptions)
    case Success(opts) => Added(opts)
    case Failure(e) => if e == NameNotMatched then Declined else Reported(ReportPrefix + Message(e))
  }

  /** The corrected callback stays quiet exactly on names that do not start with the pass name. */
  lemma CallbackDeclinedIff(name: string)
    ensures Callback(name).Declined? <==> !StartsWith(name, IRBBLabelPassName)
    ensures StartsWith(name, IRBBLabelPassName) && MatchParamPass(name, IRBBLabelPassName, IRBBLabelPassOptions).Failure?
            ==> Callback(name).Reported?
  {
    NameNotMatchedIff(name, IRBBLabelPassName, IRBBLabelPassOptions);
  }

  /** The two callbacks differ only where a real parse error's message happens to mention "name not matched". */
  lemma CallbacksAgree(name: string)
    ensures var m := MatchParamPass(name, IRBBLabelPassName, IRBBLabelPassOptions);
            CallbackAsWritten(name) != Callback(name) <==>
              m.Failure? && m.error != NameNotMatched && Contains(Message(m.error), NotMatchedText)
  {
    var m := MatchParamPass(name, IRBBLabelPassName, IRBBLabelPassOptions);
    if m.Failure? && m.error == NameNotMatched {
      ContainsAt(Message(m.error), NotMatchedText, 0);
    }
  }
}
