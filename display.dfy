/**
 * The display surface the product card and the conversation log write to.
 * Each Streamlit call of components.py becomes one abstract block carrying
 * its text payload; styling, icons and widths are not modelled.
 */
module Display {

  datatype Speaker = User | Assistant

  datatype Block =
    | Markdown(text: string)                                     // st.markdown
    | Success(name: string, id: string, price: string)           // st.success with the name, id and price
    | LowStockBanner                                             // the low-stock HTML banner
    | OutOfStockBanner                                           // the out-of-stock HTML banner
    | Specs(category: string, maker: string, score: string, reviewNumber: string)  // st.code with the specs
    | Image(path: string)                                        // st.image
    | Code(text: string)                                         // st.code
    | Info(text: string)                                         // st.info
    | LinkButton(caption: string, url: string)                   // st.link_button
    | ChatMessage(speaker: Speaker)                              // opens st.chat_message; later blocks go inside it

  predicate IsBanner(b: Block)
  {
    b.LowStockBanner? || b.OutOfStockBanner?
  }

  /** The page: every block written so far, in order. */
  class Surface {
    var blocks: seq<Block>

    constructor()
      ensures blocks == []
    {
      blocks := [];
    }

    method Emit(b: Block)
      modifies this
      ensures blocks == old(blocks) + [b]
    {
      blocks := blocks + [b];
    }
  }
}
