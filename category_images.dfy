/** The seven event categories and the stock picture for each. The same table appears in
    the event service's save hook and in the admin page's submit handler. */
module CategoryImages {

  const Categories: set<string> :=
    {"conference", "workshop", "seminar", "concert", "sports", "festival", "other"}

  const ConferenceImage := "https://images.unsplash.com/photo-1540575467063-178a50c2df87?w=800&h=600&fit=crop"
  const WorkshopImage := "https://images.unsplash.com/photo-1552664730-d307ca884978?w=800&h=600&fit=crop"
  const SeminarImage := "https://images.unsplash.com/photo-1475721027785-f74eccf877e2?w=800&h=600&fit=crop"
  const ConcertImage := "https://images.unsplash.com/photo-1501281668745-f7f57925c3b4?w=800&h=600&fit=crop"
  const SportsImage := "https://images.unsplash.com/photo-1461896836934-ffe607ba8211?w=800&h=600&fit=crop"
  const FestivalImage := "https://images.unsplash.com/photo-1533174072545-7a4b6ad7a6c3?w=800&h=600&fit=crop"
  const OtherImage := "https://images.unsplash.com/photo-1492684223066-81342ee5ff30?w=800&h=600&fit=crop"

  /** `categoryImages[category] || categoryImages.other`: the category's picture, or the
      picture of 'other' for a name outside the table. */
  function ImageFor(category: string): (url: string)
    ensures category !in Categories ==> url == OtherImage
    ensures category == "other" ==> url == OtherImage
    ensures category in Categories - {"other"} ==> url != OtherImage
    ensures url != ""
  {
    match category
    case "conference" => ConferenceImage
    case "workshop" => WorkshopImage
    case "seminar" => SeminarImage
    case "concert" => ConcertImage
    case "sports" => SportsImage
    case "festival" => FestivalImage
    case _ => OtherImage
  }

  /** Distinct categories get distinct pictures. */
  lemma ImageForInjective(a: string, b: string)
    requires a in Categories && b in Categories && a != b
    ensures ImageFor(a) != ImageFor(b)
  {
  }
}
