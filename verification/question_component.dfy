/** The question view (src/app/components/question/question.component.ts):
    the staged answer selection, the Next button and the image URL. */
module QuestionComponent {
  import opened Wrappers
  import opened QuizTypes
  import opened Strings

  /** The `answerSelected` output. */
  datatype AnswerSelected = AnswerSelected(questionId: string, answerId: string)

  /** What pressing Next did: the selection afterwards, and the output. */
  datatype NextOutcome = NextOutcome(selected: string, emitted: Option<AnswerSelected>)

  /** The selection starts empty. */
  const NoSelection := ""

  /** `handleAnswerSelectionOption`: choosing the selected answer again
      clears the selection; choosing another answer replaces it. */
  function SelectAnswer(selected: string, answerId: string): (r: string)
    ensures selected == answerId ==> r == NoSelection
    ensures selected != answerId ==> r == answerId
    ensures r == answerId || r == NoSelection
    ensures r == NoSelection <==> (selected == answerId || answerId == NoSelection)
  {
    if selected == answerId then NoSelection else answerId
  }

  /** Choosing the same answer twice from no selection leaves no
      selection; choosing it twice when it was selected restores it. */
  lemma SelectTwice(selected: string, answerId: string)
    ensures SelectAnswer(SelectAnswer(selected, answerId), answerId) ==
      if selected == answerId then answerId else NoSelection
  {
  }

  /** `handleNext`: with nothing selected nothing happens; otherwise the
      question's id and the selection are emitted and the selection is
      cleared. */
  function HandleNext(q: Question, selected: string): (o: NextOutcome)
    ensures selected == NoSelection ==> o == NextOutcome(selected, None)
    ensures selected != NoSelection ==>
      o.emitted == Some(AnswerSelected(q.id, selected)) && o.selected == NoSelection
    ensures o.emitted.Some? ==> o.emitted.value.answerId != NoSelection
  {
    if selected != NoSelection then NextOutcome(NoSelection, Some(AnswerSelected(q.id, selected)))
    else NextOutcome(selected, None)
  }

  const ImageUrlPrefix := "https://picsum.photos/600/300?random="

  /** `imageUrl`: none for an empty `imageId`; otherwise the placeholder
      service's URL with the first `img` of the id removed. */
  function ImageUrl(imageId: string): (r: Option<string>)
    ensures r.None? <==> imageId == ""
    ensures r.Some? ==> ImageUrlPrefix <= r.value
    ensures r.Some? ==> r.value[|ImageUrlPrefix|..] == RemoveFirst(imageId, "img")
  {
    if imageId != "" then
      var r := ImageUrlPrefix + RemoveFirst(imageId, "img");
      assert r[|ImageUrlPrefix|..] == RemoveFirst(imageId, "img");
      Some(r)
    else None
  }

  /** `img3` gives `...?random=3`; only the first `img` goes, so `imgimg`
      gives `...?random=img`. */
  lemma ImageUrlExamples()
    ensures ImageUrl("img3") == Some(ImageUrlPrefix + "3")
    ensures ImageUrl("imgimg") == Some(ImageUrlPrefix + "img")
  {
    assert OccursAt("img3", "img", 0) by {
      assert "img3"[0..3] == "img";
    }
    assert "img3"[..0] + "img3"[3..] == "3";
    assert OccursAt("imgimg", "img", 0) by {
      assert "imgimg"[0..3] == "img";
    }
    assert "imgimg"[..0] + "imgimg"[3..] == "img";
  }

  /** An id that does not contain `img` is appended unchanged. */
  lemma ImageUrlWithoutMarker(imageId: string)
    requires imageId != "" && IndexOf(imageId, "img").None?
    ensures ImageUrl(imageId) == Some(ImageUrlPrefix + imageId)
  {
  }
}
