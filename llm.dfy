/**
 * The language model the components consult. Every call sends one prompt
 * and receives the response text, or an error. The two errors are kept
 * apart because the components guard them differently: `Failed` is the
 * API call itself raising, `Unreadable` is a call that returned a response
 * whose `.text` then raised when read. The model is an oracle: a function
 * from the data a prompt interpolates to the reply, so that what each
 * prompt carries (and every cap applied to it) is part of the model.
 */
module Llm {
  import opened Base
  import opened Json
  import opened Sql

  datatype LlmReply = Reply(text: string) | Failed(message: string) | Unreadable(message: string)

  /** The data each prompt of the system interpolates into its fixed wording. */
  datatype Prompt =
      /** question_generator: one ambiguous requirement (id, text, section, reason, with their defaults). */
    | RequirementQuestionsPrompt(id: JValue, text: JValue, section: JValue, reason: JValue)
      /** question_generator: the `unclear` boundary items, serialised as JSON. */
    | BoundaryQuestionsPrompt(unclear: JValue)
      /** question_generator: the original question's columns and the answer received. */
    | FollowupPrompt(question: SqlValue, context: SqlValue, source: SqlValue, sourceText: SqlValue, answer: SqlValue)
      /** transcript_analyzer: one batch of question texts and the first 30000 characters of the transcript. */
    | TranscriptAnswersPrompt(questions: seq<SqlValue>, transcript: string)
      /** transcript_analyzer: the SOW's in-scope and out-of-scope items and the first 30000 characters. */
    | NewInformationPrompt(inScope: JValue, outOfScope: JValue, transcript: string)
      /** sow_parser: the whole document text. */
    | SectionsPrompt(document: string)
      /** sow_parser: the sections chosen for requirement extraction. */
    | RequirementsPrompt(sections: seq<(string, JValue)>)
      /** sow_parser: the sections chosen for boundary identification. */
    | BoundariesPrompt(sections: seq<(string, JValue)>)
      /** additional_doc: one batch of (question, context) pairs and the document content. */
    | DocumentAnswersPrompt(batch: seq<(SqlValue, SqlValue)>, content: JValue)
      /** additional_doc: up to 10 requirement (id, text) pairs, up to 20 existing questions, the first 20000 characters. */
    | DocumentQuestionsPrompt(requirements: seq<(JValue, JValue)>, existing: seq<SqlValue>, content: JValue)

  /** The oracle: deterministic in the prompt it is given. */
  type Model = Prompt -> LlmReply

  /** `json.loads`, as a partial function from text to a decoded value. */
  type Decoder = string -> Option<JValue>

  /** Python `float(s)` on a string, as a partial function. */
  type FloatParser = string -> Option<real>
}
