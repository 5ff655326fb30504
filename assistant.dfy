/**
 * The assistant's hybrid answering: a question is first matched against the
 * active FAQ entries by tag and by question text, and only when nothing
 * matches is it handed to the language model and logged as unanswered.
 * The language model's reply is a parameter.
 */
module Assistant {
  import opened Text
  import opened Models

  /** An `AIAssistantFAQ` row, with the columns the matcher and the reply read. */
  datatype Faq = Faq(
    id: int,
    questionUz: string, questionRu: string,
    answerUz: string, answerRu: string,
    actionLabelUz: Option<string>, actionLabelRu: Option<string>,
    actionLink: Option<string>,
    searchTags: string,
    isActive: bool)

  /** The Uzbek columns are used for `uz`, the Russian ones for every other language. */
  predicate Uzbek(language: string)
  {
    language == "uz"
  }

  /** Python truthiness of a nullable text column. */
  predicate Truthy(o: Option<string>)
  {
    o.Some? && o.value != ""
  }

  /** The tags of an entry: its comma-separated `search_tags`, each stripped and lower-cased; none when the column is empty. */
  function Tags(f: Faq): (tags: seq<string>)
    ensures f.searchTags == "" ==> tags == []
    ensures f.searchTags != "" ==> |tags| == |SplitOn(f.searchTags, ',')|
  {
    if f.searchTags == "" then []
    else
      var pieces := SplitOn(f.searchTags, ',');
      seq(|pieces|, k requires 0 <= k < |pieces| => Lower(Strip(pieces[k])))
  }

  /** Every tag is already in lower case, so an upper-case letter in a tag never matters. */
  lemma TagsAreLowerCase(f: Faq)
    ensures forall k :: 0 <= k < |Tags(f)| ==> Lower(Tags(f)[k]) == Tags(f)[k]
  {
    forall k | 0 <= k < |Tags(f)| ensures Lower(Tags(f)[k]) == Tags(f)[k] {
      LowerIdempotent(Strip(SplitOn(f.searchTags, ',')[k]));
    }
  }

  /** The entry's question text in the requested language, lower-cased. */
  function QuestionText(f: Faq, language: string): string
  {
    Lower(if Uzbek(language) then f.questionUz else f.questionRu)
  }

  /**
   * Whether an entry answers the folded question `q`: some word of `q` is
   * one of its tags, or one of `q` and its question text contains the other.
   */
  predicate Matches(f: Faq, q: string, language: string)
  {
    (exists w :: w in Words(q) && w in Tags(f))
    || IsSubstring(q, QuestionText(f, language)) || IsSubstring(QuestionText(f, language), q)
  }

  /** Whether an entry answers the question as asked, which is first lower-cased and stripped. */
  predicate Resolves(f: Faq, question: string, language: string)
  {
    f.isActive && Matches(f, Folded(question), language)
  }

  /** The entry at `i` is the first of `faqs` that answers the question. */
  predicate FirstResolverAt(faqs: seq<Faq>, question: string, language: string, i: nat)
  {
    i < |faqs| && Resolves(faqs[i], question, language)
    && forall j :: 0 <= j < i ==> !Resolves(faqs[j], question, language)
  }

  /**
   * `find_faq_match`: the index of the first active entry, in the table's
   * order, that answers the question, or none when no active entry does.
   */
  method FindFaqMatch(faqs: seq<Faq>, question: string, language: string) returns (r: Option<nat>)
    ensures r.Some? ==> FirstResolverAt(faqs, question, language, r.value)
    ensures r.None? <==> forall j :: 0 <= j < |faqs| ==> !Resolves(faqs[j], question, language)
  {
    var q := Folded(question);
    var words := Words(q);
    var i := 0;
    while i < |faqs|
      invariant 0 <= i <= |faqs|
      invariant forall j :: 0 <= j < i ==> !Resolves(faqs[j], question, language)
    {
      var hit := TryEntry(faqs[i], q, words, language);
      if hit {
        return Some(i);
      }
      i := i + 1;
    }
    return None;
  }

  /** The body of the search for one entry: an active entry with a tag among the words, or whose question text contains or is contained in the question. */
  method TryEntry(f: Faq, q: string, words: seq<string>, language: string) returns (hit: bool)
    requires words == Words(q)
    ensures hit <==> f.isActive && Matches(f, q, language)
  {
    hit := false;
    if f.isActive {
      var tags := Tags(f);
      if exists w | w in words :: w in tags {
        return true;
      }
      var text := QuestionText(f, language);
      hit := IsSubstring(q, text) || IsSubstring(text, q);
    }
  }

  /** Matching ignores the case of the question. */
  lemma ResolvesIgnoresCase(f: Faq, question: string, language: string)
    ensures Resolves(f, Lower(question), language) <==> Resolves(f, question, language)
  {
    calc {
      Folded(Lower(question));
      Lower(Strip(Lower(question)));
      { LowerStripCommute(question); }
      Lower(Lower(Strip(question)));
      { LowerIdempotent(Strip(question)); }
      Folded(question);
    }
  }

  /** Matching ignores whitespace around the question. */
  lemma ResolvesIgnoresSurroundingSpace(f: Faq, question: string, language: string)
    ensures Resolves(f, Strip(question), language) <==> Resolves(f, question, language)
  {
    StripIdempotent(question);
  }

  /** A question of nothing but whitespace is contained in every question text, so every active entry answers it. */
  lemma BlankQuestionMatchesEveryActiveEntry(f: Faq, question: string, language: string)
    requires Strip(question) == ""
    ensures Resolves(f, question, language) <==> f.isActive
  {
    assert Folded(question) == [];
    assert IsSubstring([], QuestionText(f, language));
  }

  /** An inactive entry is never chosen, whatever it says. */
  lemma InactiveNeverAnswers(f: Faq, question: string, language: string)
    requires !f.isActive
    ensures !Resolves(f, question, language)
  {
  }

  /** A word of the question that is one of an active entry's tags is enough, whatever the entry's question text. */
  lemma TagHitResolves(f: Faq, question: string, language: string, w: string)
    requires f.isActive && w in Words(Folded(question)) && w in Tags(f)
    ensures Resolves(f, question, language)
  {
  }

  /** Who wrote a logged message. */
  datatype Author = UserRole | AssistantRole

  /** Where an assistant message came from. */
  datatype Source = FromFaq | FromLlm

  /** An `AIMessage` row. */
  datatype Message = Message(conversation: int, author: Author, content: string, source: Source, faq: Option<int>)

  /** An `AIConversation` row, as far as `process_query` reads it. */
  datatype Conversation = Conversation(id: int, user: Option<UserId>, contextUrl: Option<string>)

  /** An `AIUnansweredQuestion` row. */
  datatype Unanswered = Unanswered(question: string, user: Option<UserId>, contextUrl: Option<string>, isResolved: bool)

  /** The button attached to an FAQ answer. */
  datatype Action = Action(caption: string, link: string)

  /** The reply of `process_query`; a message id is the message's position in the log. */
  datatype Reply =
    | FaqReply(content: string, action: Option<Action>, faqId: int)
    | LlmReply(content: string, messageId: nat)

  /** The answer text of an entry in the requested language. */
  function AnswerText(f: Faq, language: string): string
  {
    if Uzbek(language) then f.answerUz else f.answerRu
  }

  /** The action of an entry: present only with a link, labelled in the language or "Batafsil" by default. */
  function ActionOf(f: Faq, language: string): (a: Option<Action>)
    ensures a.Some? <==> Truthy(f.actionLink)
    ensures a.Some? ==> a.value.link == f.actionLink.value && a.value.caption != ""
    ensures a.Some? && !Truthy(if Uzbek(language) then f.actionLabelUz else f.actionLabelRu) ==> a.value.caption == "Batafsil"
  {
    var caption := if Uzbek(language) then f.actionLabelUz else f.actionLabelRu;
    if Truthy(f.actionLink) then Some(Action(if Truthy(caption) then caption.value else "Batafsil", f.actionLink.value))
    else None
  }

  /** The assistant's message log and the unanswered-question queue. */
  class AssistantLog {
    var messages: seq<Message>
    var unanswered: seq<Unanswered>

    constructor()
      ensures messages == [] && unanswered == []
    {
      messages := [];
      unanswered := [];
    }

    /**
     * `process_query`: the question is logged; an FAQ answer comes from the
     * first entry that answers it, and otherwise the language model's answer
     * `llmAnswer` is given and the question is queued as unanswered.  Exactly
     * two messages are logged either way.
     */
    method ProcessQuery(conv: Conversation, question: string, language: string, faqs: seq<Faq>, llmAnswer: string)
      returns (reply: Reply)
      modifies this
      ensures reply.FaqReply? <==> exists i :: 0 <= i < |faqs| && Resolves(faqs[i], question, language)
      ensures reply.FaqReply? ==>
        exists i: nat :: (FirstResolverAt(faqs, question, language, i)
                     && reply == FaqReply(AnswerText(faqs[i], language), ActionOf(faqs[i], language), faqs[i].id)
                     && messages == old(messages) + [Message(conv.id, UserRole, question, FromFaq, None),
                                                     Message(conv.id, AssistantRole, reply.content, FromFaq, Some(faqs[i].id))])
      ensures reply.FaqReply? ==> unanswered == old(unanswered)
      ensures reply.LlmReply? ==>
        reply == LlmReply(llmAnswer, |old(messages)| + 1)
        && messages == old(messages) + [Message(conv.id, UserRole, question, FromFaq, None),
                                        Message(conv.id, AssistantRole, llmAnswer, FromLlm, None)]
        && unanswered == old(unanswered) + [Unanswered(question, conv.user, conv.contextUrl, false)]
    {
      messages := messages + [Message(conv.id, UserRole, question, FromFaq, None)];
      var found := FindFaqMatch(faqs, question, language);
      if found.Some? {
        var f := faqs[found.value];
        var answer := AnswerText(f, language);
        messages := messages + [Message(conv.id, AssistantRole, answer, FromFaq, Some(f.id))];
        reply := FaqReply(answer, ActionOf(f, language), f.id);
        assert FirstResolverAt(faqs, question, language, found.value);
      } else {
        var id := |messages|;
        messages := messages + [Message(conv.id, AssistantRole, llmAnswer, FromLlm, None)];
        unanswered := unanswered + [Unanswered(question, conv.user, conv.contextUrl, false)];
        reply := LlmReply(llmAnswer, id);
      }
    }
  }
}
