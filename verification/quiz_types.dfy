/** The records the quiz exchanges between its components. */
module QuizTypes {

  /** One selectable answer of a question. */
  datatype AnswerOption = AnswerOption(id: string, description: string)

  /** A quiz question as fetched from the data source. Priorities are
      integers here; the source's `number` may be fractional. */
  datatype Question = Question(
    id: string,
    description: string,
    imageId: string,
    priority: int,
    answers: seq<AnswerOption>)

  /** The screen the quiz shows. */
  datatype View = Welcome | Test | Summary

  /** One `{questionId, answerId}` pair of the submitted results. */
  datatype ResultEntry = ResultEntry(questionId: string, answerId: string)
}
