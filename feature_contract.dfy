/** The nine named model inputs shared by the client, the preprocessing job and the service. */
module FeatureContract {

  const Features: seq<string> := [
    "MedInc", "HouseAge", "AveRooms", "AveBedrms", "Population",
    "AveOccup", "Latitude", "Longitude", "RoomsPerHousehold"
  ]

  /** The two geographic columns, which the outlier capping leaves alone. */
  const Latitude: string := "Latitude"
  const Longitude: string := "Longitude"

  predicate Distinct<T(==)>(s: seq<T>)
  {
    forall i, j :: 0 <= i < j < |s| ==> s[i] != s[j]
  }

  lemma FeaturesDistinct()
    ensures |Features| == 9 && Distinct(Features)
  {
  }
}
