/** The text units the loaders produce and the store keeps: LangChain's `Document`. */
module Documents {

  datatype Document = Document(pageContent: string, metadata: map<string, string>)
}
